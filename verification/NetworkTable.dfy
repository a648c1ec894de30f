/** The registered network operations: pkg/middleware/auth/network_policy.go:32-87 and
    pkg/middleware/auth/platform_network_policy.go:12-50. */
module NetworkTable {
  import opened Basics

  /** The literal path segments in use. */
  datatype Word =
    | Root | Api | V1 | Networks | Instances | Vnics | BindingTargets | Eips | SecurityGroups | Operations
    | Rules | Bindings | VpcCidrPresets | Vpcs | AssociatedInstances | Subnets | Snat | LoadBalancers
    | VirtualMachines | NetworkInterfaces | Admin | DefaultVpcEgresses | DefaultVpcEgress | VirtualSwitches
    | VlanNetworks | EgressGateways | PublicAddressPools | Verification | Allocation | Default
    | IntranetAddressPools | IntranetAddressPoolDefaults | AutoAllocation | Capabilities

  function Text(w: Word): string {
    match w
    case Root => ""
    case Api => "api"
    case V1 => "v1"
    case Networks => "networks"
    case Instances => "instances"
    case Vnics => "vnics"
    case BindingTargets => "binding-targets"
    case Eips => "eips"
    case SecurityGroups => "security-groups"
    case Operations => "operations"
    case Rules => "rules"
    case Bindings => "bindings"
    case VpcCidrPresets => "vpc-cidr-presets"
    case Vpcs => "vpcs"
    case AssociatedInstances => "associated-instances"
    case Subnets => "subnets"
    case Snat => "snat"
    case LoadBalancers => "load-balancers"
    case VirtualMachines => "virtual-machines"
    case NetworkInterfaces => "network-interfaces"
    case Admin => "admin"
    case DefaultVpcEgresses => "default-vpc-egresses"
    case DefaultVpcEgress => "default-vpc-egress"
    case VirtualSwitches => "virtual-switches"
    case VlanNetworks => "vlan-networks"
    case EgressGateways => "egress-gateways"
    case PublicAddressPools => "public-address-pools"
    case Verification => "verification"
    case Allocation => "allocation"
    case Default => "default"
    case IntranetAddressPools => "intranet-address-pools"
    case IntranetAddressPoolDefaults => "intranet-address-pool-defaults"
    case AutoAllocation => "auto-allocation"
    case Capabilities => "capabilities"
  }

  /** The fields that ids in a path go to. */
  datatype Field =
    | VnicId | EipId | OperationId | SecurityGroupId | RuleId | VpcId | SubnetId | BindingId | LoadBalancerId
    | VmId | Slot | InstanceId | EgressId | VirtualSwitchId | VlanNetworkId | GatewayId | PoolId

  function FieldText(f: Field): string {
    match f
    case VnicId => "vnic_id"
    case EipId => "eip_id"
    case OperationId => "operation_id"
    case SecurityGroupId => "security_group_id"
    case RuleId => "rule_id"
    case VpcId => "vpc_id"
    case SubnetId => "subnet_id"
    case BindingId => "binding_id"
    case LoadBalancerId => "load_balancer_id"
    case VmId => "vm_id"
    case Slot => "slot"
    case InstanceId => "instance_id"
    case EgressId => "egress_id"
    case VirtualSwitchId => "virtual_switch_id"
    case VlanNetworkId => "vlan_network_id"
    case GatewayId => "gateway_id"
    case PoolId => "pool_id"
  }

  datatype Seg = Lit(word: Word) | Param(field: Field)

  datatype Verb = Get | Post | Put | Patch | Delete

  function VerbText(v: Verb): string {
    match v
    case Get => "GET"
    case Post => "POST"
    case Put => "PUT"
    case Patch => "PATCH"
    case Delete => "DELETE"
  }

  datatype Policy = Policy(verb: Verb, segs: seq<Seg>)

  /** The keys of NetworkOperations, OwnerNetworkInterfaceOperations and PlatformNetworkOperations. */
  datatype NetworkOp =
    | ListNetworkInstances | CreateVNic | GetVNic | ListVNics | DeleteVNic | ListVNicBindingTargets
    | GetEIPSecurityGroups | GetSecurityGroupOperation | CreateSecurityGroup | GetSecurityGroup
    | ListSecurityGroups | UpdateSecurityGroup | DeleteSecurityGroup | ListSecurityGroupRules
    | CreateSecurityGroupRule | UpdateSecurityGroupRule | DeleteSecurityGroupRule | ListSecurityGroupBindings
    | SetEIPSecurityGroups | ListVPCCIDRPresets | CreateVPC | GetVPC | ListVPCs | ListVPCAssociatedInstances
    | DeleteVPC | GetOperation | CreateSubnet | GetSubnet | ListSubnetAssociatedInstances | ListSubnets
    | DeleteSubnet | CreateEIP | GetEIP | ListEIPs | DeleteEIP | GetVPCSnat | BindVPCSnat | GetVPCSnatBinding
    | SetVPCSnatEnabled | DeleteVPCSnatBinding | CreateLoadBalancer | GetLoadBalancer | ListLoadBalancers
    | UpdateLoadBalancer | DeleteLoadBalancer | GetLoadBalancerOperation

  datatype OwnerOp =
    | GetVMNetworkInterfaces | SetVMNetworkInterface | GetInstanceNetworkInterfaces
    | SetInstanceNetworkInterface

  datatype PlatformOp =
    | ListPlatformEIPs | GetPlatformEIP | ReleasePlatformEIP | CreateDefaultVPCEgress | GetDefaultVPCEgress
    | GetCurrentDefaultVPCEgress | DeleteDefaultVPCEgress | CreateVirtualSwitch | GetVirtualSwitch
    | ListVirtualSwitches | DeleteVirtualSwitch | CreateVlanNetwork | GetVlanNetwork | ListVlanNetworks
    | DeleteVlanNetwork | CreateEgressGateway | GetEgressGateway | ListEgressGateways | DeleteEgressGateway
    | CreatePublicAddressPool | GetPublicAddressPool | ListPublicAddressPools | DeletePublicAddressPool
    | RecordPublicPoolVerification | SetPublicPoolAllocationEnabled | SetDefaultPublicPool
    | CreateIntranetAddressPool | GetIntranetAddressPool | GetIntranetPoolDefaults | ListIntranetAddressPools
    | DeleteIntranetAddressPool | RecordIntranetPoolVerification | SetIntranetPoolAllocationEnabled
    | SetDefaultIntranetPool | SetIntranetPoolAutoAllocationEnabled | GetPlatformNetworkCapabilities
    | GetPlatformOperation

  datatype Op = OfNetwork(network: NetworkOp) | OfOwner(owner: OwnerOp) | OfPlatform(platform: PlatformOp)

  const NETWORKS: seq<Seg> := [Lit(Root), Lit(Api), Lit(V1), Lit(Networks)]
  const ADMIN_NETWORKS: seq<Seg> := [Lit(Root), Lit(Api), Lit(V1), Lit(Admin), Lit(Networks)]

  function NetworkPolicy(op: NetworkOp): Policy {
    match op
    case ListNetworkInstances => Policy(Get, NETWORKS + [Lit(Instances)])
    case CreateVNic => Policy(Post, NETWORKS + [Lit(Vnics)])
    case GetVNic => Policy(Get, NETWORKS + [Lit(Vnics), Param(VnicId)])
    case ListVNics => Policy(Get, NETWORKS + [Lit(Vnics)])
    case DeleteVNic => Policy(Delete, NETWORKS + [Lit(Vnics), Param(VnicId)])
    case ListVNicBindingTargets => Policy(Get, NETWORKS + [Lit(Vnics), Param(VnicId), Lit(BindingTargets)])
    case GetEIPSecurityGroups => Policy(Get, NETWORKS + [Lit(Eips), Param(EipId), Lit(SecurityGroups)])
    case GetSecurityGroupOperation =>
      Policy(Get, NETWORKS + [Lit(SecurityGroups), Lit(Operations), Param(OperationId)])
    case CreateSecurityGroup => Policy(Post, NETWORKS + [Lit(SecurityGroups)])
    case GetSecurityGroup => Policy(Get, NETWORKS + [Lit(SecurityGroups), Param(SecurityGroupId)])
    case ListSecurityGroups => Policy(Get, NETWORKS + [Lit(SecurityGroups)])
    case UpdateSecurityGroup => Policy(Patch, NETWORKS + [Lit(SecurityGroups), Param(SecurityGroupId)])
    case DeleteSecurityGroup => Policy(Delete, NETWORKS + [Lit(SecurityGroups), Param(SecurityGroupId)])
    case ListSecurityGroupRules => Policy(Get, NETWORKS + [Lit(SecurityGroups), Param(SecurityGroupId), Lit(Rules)])
    case CreateSecurityGroupRule => Policy(Post, NETWORKS + [Lit(SecurityGroups), Param(SecurityGroupId), Lit(Rules)])
    case UpdateSecurityGroupRule =>
      Policy(Patch, NETWORKS + [Lit(SecurityGroups), Param(SecurityGroupId), Lit(Rules), Param(RuleId)])
    case DeleteSecurityGroupRule =>
      Policy(Delete, NETWORKS + [Lit(SecurityGroups), Param(SecurityGroupId), Lit(Rules), Param(RuleId)])
    case ListSecurityGroupBindings =>
      Policy(Get, NETWORKS + [Lit(SecurityGroups), Param(SecurityGroupId), Lit(Bindings)])
    case SetEIPSecurityGroups => Policy(Put, NETWORKS + [Lit(Eips), Param(EipId), Lit(SecurityGroups)])
    case ListVPCCIDRPresets => Policy(Get, NETWORKS + [Lit(VpcCidrPresets)])
    case CreateVPC => Policy(Post, NETWORKS + [Lit(Vpcs)])
    case GetVPC => Policy(Get, NETWORKS + [Lit(Vpcs), Param(VpcId)])
    case ListVPCs => Policy(Get, NETWORKS + [Lit(Vpcs)])
    case ListVPCAssociatedInstances => Policy(Get, NETWORKS + [Lit(Vpcs), Param(VpcId), Lit(AssociatedInstances)])
    case DeleteVPC => Policy(Delete, NETWORKS + [Lit(Vpcs), Param(VpcId)])
    case GetOperation => Policy(Get, NETWORKS + [Lit(Operations), Param(OperationId)])
    case CreateSubnet => Policy(Post, NETWORKS + [Lit(Subnets)])
    case GetSubnet => Policy(Get, NETWORKS + [Lit(Subnets), Param(SubnetId)])
    case ListSubnetAssociatedInstances =>
      Policy(Get, NETWORKS + [Lit(Subnets), Param(SubnetId), Lit(AssociatedInstances)])
    case ListSubnets => Policy(Get, NETWORKS + [Lit(Subnets)])
    case DeleteSubnet => Policy(Delete, NETWORKS + [Lit(Subnets), Param(SubnetId)])
    case CreateEIP => Policy(Post, NETWORKS + [Lit(Eips)])
    case GetEIP => Policy(Get, NETWORKS + [Lit(Eips), Param(EipId)])
    case ListEIPs => Policy(Get, NETWORKS + [Lit(Eips)])
    case DeleteEIP => Policy(Delete, NETWORKS + [Lit(Eips), Param(EipId)])
    case GetVPCSnat => Policy(Get, NETWORKS + [Lit(Vpcs), Param(VpcId), Lit(Snat)])
    case BindVPCSnat => Policy(Post, NETWORKS + [Lit(Vpcs), Param(VpcId), Lit(Snat), Lit(Bindings)])
    case GetVPCSnatBinding => Policy(Get, NETWORKS + [Lit(Snat), Lit(Bindings), Param(BindingId)])
    case SetVPCSnatEnabled => Policy(Patch, NETWORKS + [Lit(Snat), Lit(Bindings), Param(BindingId)])
    case DeleteVPCSnatBinding => Policy(Delete, NETWORKS + [Lit(Snat), Lit(Bindings), Param(BindingId)])
    case CreateLoadBalancer => Policy(Post, NETWORKS + [Lit(LoadBalancers)])
    case GetLoadBalancer => Policy(Get, NETWORKS + [Lit(LoadBalancers), Param(LoadBalancerId)])
    case ListLoadBalancers => Policy(Get, NETWORKS + [Lit(LoadBalancers)])
    case UpdateLoadBalancer => Policy(Patch, NETWORKS + [Lit(LoadBalancers), Param(LoadBalancerId)])
    case DeleteLoadBalancer => Policy(Delete, NETWORKS + [Lit(LoadBalancers), Param(LoadBalancerId)])
    case GetLoadBalancerOperation => Policy(Get, NETWORKS + [Lit(LoadBalancers), Lit(Operations), Param(OperationId)])
  }

  function OwnerPolicy(op: OwnerOp): Policy {
    match op
    case GetVMNetworkInterfaces =>
      Policy(Get, [Lit(Root), Lit(Api), Lit(V1), Lit(VirtualMachines), Param(VmId), Lit(NetworkInterfaces)])
    case SetVMNetworkInterface =>
      Policy(Put, [Lit(Root), Lit(Api), Lit(V1), Lit(VirtualMachines), Param(VmId),
                   Lit(NetworkInterfaces), Param(Slot)])
    case GetInstanceNetworkInterfaces =>
      Policy(Get, [Lit(Root), Lit(Api), Lit(V1), Lit(Instances), Param(InstanceId), Lit(NetworkInterfaces)])
    case SetInstanceNetworkInterface =>
      Policy(Put, [Lit(Root), Lit(Api), Lit(V1), Lit(Instances), Param(InstanceId),
                   Lit(NetworkInterfaces), Param(Slot)])
  }

  function PlatformPolicy(op: PlatformOp): Policy {
    match op
    case ListPlatformEIPs => Policy(Get, ADMIN_NETWORKS + [Lit(Eips)])
    case GetPlatformEIP => Policy(Get, ADMIN_NETWORKS + [Lit(Eips), Param(EipId)])
    case ReleasePlatformEIP => Policy(Delete, ADMIN_NETWORKS + [Lit(Eips), Param(EipId)])
    case CreateDefaultVPCEgress => Policy(Post, ADMIN_NETWORKS + [Lit(DefaultVpcEgresses)])
    case GetDefaultVPCEgress => Policy(Get, ADMIN_NETWORKS + [Lit(DefaultVpcEgresses), Param(EgressId)])
    case GetCurrentDefaultVPCEgress => Policy(Get, ADMIN_NETWORKS + [Lit(DefaultVpcEgress)])
    case DeleteDefaultVPCEgress => Policy(Delete, ADMIN_NETWORKS + [Lit(DefaultVpcEgresses), Param(EgressId)])
    case CreateVirtualSwitch => Policy(Post, ADMIN_NETWORKS + [Lit(VirtualSwitches)])
    case GetVirtualSwitch => Policy(Get, ADMIN_NETWORKS + [Lit(VirtualSwitches), Param(VirtualSwitchId)])
    case ListVirtualSwitches => Policy(Get, ADMIN_NETWORKS + [Lit(VirtualSwitches)])
    case DeleteVirtualSwitch => Policy(Delete, ADMIN_NETWORKS + [Lit(VirtualSwitches), Param(VirtualSwitchId)])
    case CreateVlanNetwork => Policy(Post, ADMIN_NETWORKS + [Lit(VlanNetworks)])
    case GetVlanNetwork => Policy(Get, ADMIN_NETWORKS + [Lit(VlanNetworks), Param(VlanNetworkId)])
    case ListVlanNetworks => Policy(Get, ADMIN_NETWORKS + [Lit(VlanNetworks)])
    case DeleteVlanNetwork => Policy(Delete, ADMIN_NETWORKS + [Lit(VlanNetworks), Param(VlanNetworkId)])
    case CreateEgressGateway => Policy(Post, ADMIN_NETWORKS + [Lit(EgressGateways)])
    case GetEgressGateway => Policy(Get, ADMIN_NETWORKS + [Lit(EgressGateways), Param(GatewayId)])
    case ListEgressGateways => Policy(Get, ADMIN_NETWORKS + [Lit(EgressGateways)])
    case DeleteEgressGateway => Policy(Delete, ADMIN_NETWORKS + [Lit(EgressGateways), Param(GatewayId)])
    case CreatePublicAddressPool => Policy(Post, ADMIN_NETWORKS + [Lit(PublicAddressPools)])
    case GetPublicAddressPool => Policy(Get, ADMIN_NETWORKS + [Lit(PublicAddressPools), Param(PoolId)])
    case ListPublicAddressPools => Policy(Get, ADMIN_NETWORKS + [Lit(PublicAddressPools)])
    case DeletePublicAddressPool => Policy(Delete, ADMIN_NETWORKS + [Lit(PublicAddressPools), Param(PoolId)])
    case RecordPublicPoolVerification =>
      Policy(Post, ADMIN_NETWORKS + [Lit(PublicAddressPools), Param(PoolId), Lit(Verification)])
    case SetPublicPoolAllocationEnabled =>
      Policy(Patch, ADMIN_NETWORKS + [Lit(PublicAddressPools), Param(PoolId), Lit(Allocation)])
    case SetDefaultPublicPool => Policy(Post, ADMIN_NETWORKS + [Lit(PublicAddressPools), Param(PoolId), Lit(Default)])
    case CreateIntranetAddressPool => Policy(Post, ADMIN_NETWORKS + [Lit(IntranetAddressPools)])
    case GetIntranetAddressPool => Policy(Get, ADMIN_NETWORKS + [Lit(IntranetAddressPools), Param(PoolId)])
    case GetIntranetPoolDefaults => Policy(Get, ADMIN_NETWORKS + [Lit(IntranetAddressPoolDefaults)])
    case ListIntranetAddressPools => Policy(Get, ADMIN_NETWORKS + [Lit(IntranetAddressPools)])
    case DeleteIntranetAddressPool => Policy(Delete, ADMIN_NETWORKS + [Lit(IntranetAddressPools), Param(PoolId)])
    case RecordIntranetPoolVerification =>
      Policy(Post, ADMIN_NETWORKS + [Lit(IntranetAddressPools), Param(PoolId), Lit(Verification)])
    case SetIntranetPoolAllocationEnabled =>
      Policy(Patch, ADMIN_NETWORKS + [Lit(IntranetAddressPools), Param(PoolId), Lit(Allocation)])
    case SetDefaultIntranetPool =>
      Policy(Post, ADMIN_NETWORKS + [Lit(IntranetAddressPools), Param(PoolId), Lit(Default)])
    case SetIntranetPoolAutoAllocationEnabled =>
      Policy(Put, ADMIN_NETWORKS + [Lit(IntranetAddressPools), Param(PoolId), Lit(AutoAllocation)])
    case GetPlatformNetworkCapabilities => Policy(Get, ADMIN_NETWORKS + [Lit(Capabilities)])
    case GetPlatformOperation => Policy(Get, ADMIN_NETWORKS + [Lit(Operations), Param(OperationId)])
  }

  function PolicyOf(op: Op): Policy {
    match op
    case OfNetwork(n) => NetworkPolicy(n)
    case OfOwner(o) => OwnerPolicy(o)
    case OfPlatform(p) => PlatformPolicy(p)
  }

  /** The words of a path, with None for a segment that is none of them. */
  type Shape = seq<Option<Word>>

  function ShapeOf(segs: seq<Seg>): Shape {
    seq(|segs|, i requires 0 <= i < |segs| => if segs[i].Lit? then Some(segs[i].word) else None)
  }

  /** Reads the operation off the verb and the words of a path. */
  function OpOf(verb: Verb, shape: Shape): Option<Op> {
    match |shape|
    case 5 =>
      if shape[4] == Some(Instances) then
        Some(OfNetwork(ListNetworkInstances))
      else if shape[4] == Some(Vnics) then
        if verb == Post then Some(OfNetwork(CreateVNic)) else Some(OfNetwork(ListVNics))
      else if shape[4] == Some(SecurityGroups) then
        if verb == Post then Some(OfNetwork(CreateSecurityGroup)) else Some(OfNetwork(ListSecurityGroups))
      else if shape[4] == Some(VpcCidrPresets) then
        Some(OfNetwork(ListVPCCIDRPresets))
      else if shape[4] == Some(Vpcs) then
        if verb == Post then Some(OfNetwork(CreateVPC)) else Some(OfNetwork(ListVPCs))
      else if shape[4] == Some(Subnets) then
        if verb == Post then Some(OfNetwork(CreateSubnet)) else Some(OfNetwork(ListSubnets))
      else if shape[4] == Some(Eips) then
        if verb == Post then Some(OfNetwork(CreateEIP)) else Some(OfNetwork(ListEIPs))
      else
        if verb == Post then Some(OfNetwork(CreateLoadBalancer)) else Some(OfNetwork(ListLoadBalancers))
    case 6 =>
      if shape[3] == Some(Networks) then
        if shape[4] == Some(Vnics) then
          if verb == Get then Some(OfNetwork(GetVNic)) else Some(OfNetwork(DeleteVNic))
        else if shape[4] == Some(SecurityGroups) then
          if verb == Get then Some(OfNetwork(GetSecurityGroup))
          else if verb == Patch then Some(OfNetwork(UpdateSecurityGroup))
          else Some(OfNetwork(DeleteSecurityGroup))
        else if shape[4] == Some(Vpcs) then
          if verb == Get then Some(OfNetwork(GetVPC)) else Some(OfNetwork(DeleteVPC))
        else if shape[4] == Some(Operations) then
          Some(OfNetwork(GetOperation))
        else if shape[4] == Some(Subnets) then
          if verb == Get then Some(OfNetwork(GetSubnet)) else Some(OfNetwork(DeleteSubnet))
        else if shape[4] == Some(Eips) then
          if verb == Get then Some(OfNetwork(GetEIP)) else Some(OfNetwork(DeleteEIP))
        else
          if verb == Get then Some(OfNetwork(GetLoadBalancer))
          else if verb == Patch then Some(OfNetwork(UpdateLoadBalancer))
          else Some(OfNetwork(DeleteLoadBalancer))
      else if shape[3] == Some(VirtualMachines) then
        Some(OfOwner(GetVMNetworkInterfaces))
      else if shape[3] == Some(Instances) then
        Some(OfOwner(GetInstanceNetworkInterfaces))
      else
        if shape[5] == Some(Eips) then
          Some(OfPlatform(ListPlatformEIPs))
        else if shape[5] == Some(DefaultVpcEgresses) then
          Some(OfPlatform(CreateDefaultVPCEgress))
        else if shape[5] == Some(DefaultVpcEgress) then
          Some(OfPlatform(GetCurrentDefaultVPCEgress))
        else if shape[5] == Some(VirtualSwitches) then
          if verb == Post then Some(OfPlatform(CreateVirtualSwitch)) else Some(OfPlatform(ListVirtualSwitches))
        else if shape[5] == Some(VlanNetworks) then
          if verb == Post then Some(OfPlatform(CreateVlanNetwork)) else Some(OfPlatform(ListVlanNetworks))
        else if shape[5] == Some(EgressGateways) then
          if verb == Post then Some(OfPlatform(CreateEgressGateway)) else Some(OfPlatform(ListEgressGateways))
        else if shape[5] == Some(PublicAddressPools) then
          if verb == Post then Some(OfPlatform(CreatePublicAddressPool)) else Some(OfPlatform(ListPublicAddressPools))
        else if shape[5] == Some(IntranetAddressPools) then
          if verb == Post then Some(OfPlatform(CreateIntranetAddressPool))
          else Some(OfPlatform(ListIntranetAddressPools))
        else if shape[5] == Some(IntranetAddressPoolDefaults) then
          Some(OfPlatform(GetIntranetPoolDefaults))
        else
          Some(OfPlatform(GetPlatformNetworkCapabilities))
    case 7 =>
      if shape[3] == Some(Networks) then
        if shape[4] == Some(Vnics) then
          Some(OfNetwork(ListVNicBindingTargets))
        else if shape[4] == Some(Eips) then
          if verb == Get then Some(OfNetwork(GetEIPSecurityGroups)) else Some(OfNetwork(SetEIPSecurityGroups))
        else if shape[4] == Some(SecurityGroups) then
          if shape[5] == Some(Operations) then
            Some(OfNetwork(GetSecurityGroupOperation))
          else
            if shape[6] == Some(Rules) then
              if verb == Get then Some(OfNetwork(ListSecurityGroupRules)) else Some(OfNetwork(CreateSecurityGroupRule))
            else
              Some(OfNetwork(ListSecurityGroupBindings))
        else if shape[4] == Some(Vpcs) then
          if shape[6] == Some(AssociatedInstances) then
            Some(OfNetwork(ListVPCAssociatedInstances))
          else
            Some(OfNetwork(GetVPCSnat))
        else if shape[4] == Some(Subnets) then
          Some(OfNetwork(ListSubnetAssociatedInstances))
        else if shape[4] == Some(Snat) then
          if verb == Get then Some(OfNetwork(GetVPCSnatBinding))
          else if verb == Patch then Some(OfNetwork(SetVPCSnatEnabled))
          else Some(OfNetwork(DeleteVPCSnatBinding))
        else
          Some(OfNetwork(GetLoadBalancerOperation))
      else if shape[3] == Some(VirtualMachines) then
        Some(OfOwner(SetVMNetworkInterface))
      else if shape[3] == Some(Instances) then
        Some(OfOwner(SetInstanceNetworkInterface))
      else
        if shape[5] == Some(Eips) then
          if verb == Get then Some(OfPlatform(GetPlatformEIP)) else Some(OfPlatform(ReleasePlatformEIP))
        else if shape[5] == Some(DefaultVpcEgresses) then
          if verb == Get then Some(OfPlatform(GetDefaultVPCEgress)) else Some(OfPlatform(DeleteDefaultVPCEgress))
        else if shape[5] == Some(VirtualSwitches) then
          if verb == Get then Some(OfPlatform(GetVirtualSwitch)) else Some(OfPlatform(DeleteVirtualSwitch))
        else if shape[5] == Some(VlanNetworks) then
          if verb == Get then Some(OfPlatform(GetVlanNetwork)) else Some(OfPlatform(DeleteVlanNetwork))
        else if shape[5] == Some(EgressGateways) then
          if verb == Get then Some(OfPlatform(GetEgressGateway)) else Some(OfPlatform(DeleteEgressGateway))
        else if shape[5] == Some(PublicAddressPools) then
          if verb == Get then Some(OfPlatform(GetPublicAddressPool)) else Some(OfPlatform(DeletePublicAddressPool))
        else if shape[5] == Some(IntranetAddressPools) then
          if verb == Get then Some(OfPlatform(GetIntranetAddressPool)) else Some(OfPlatform(DeleteIntranetAddressPool))
        else
          Some(OfPlatform(GetPlatformOperation))
    case 8 =>
      if shape[3] == Some(Networks) then
        if shape[4] == Some(SecurityGroups) then
          if verb == Patch then Some(OfNetwork(UpdateSecurityGroupRule)) else Some(OfNetwork(DeleteSecurityGroupRule))
        else
          Some(OfNetwork(BindVPCSnat))
      else
        if shape[5] == Some(PublicAddressPools) then
          if shape[7] == Some(Verification) then
            Some(OfPlatform(RecordPublicPoolVerification))
          else if shape[7] == Some(Allocation) then
            Some(OfPlatform(SetPublicPoolAllocationEnabled))
          else
            Some(OfPlatform(SetDefaultPublicPool))
        else
          if shape[7] == Some(Verification) then
            Some(OfPlatform(RecordIntranetPoolVerification))
          else if shape[7] == Some(Allocation) then
            Some(OfPlatform(SetIntranetPoolAllocationEnabled))
          else if shape[7] == Some(Default) then
            Some(OfPlatform(SetDefaultIntranetPool))
          else
            Some(OfPlatform(SetIntranetPoolAutoAllocationEnabled))
    case _ => None
  }

  lemma {:induction false} NetworkReadOfPolicy(op: NetworkOp)
    requires NetworkPolicy(op).verb == Get
    ensures OpOf(NetworkPolicy(op).verb, ShapeOf(NetworkPolicy(op).segs)) == Some(OfNetwork(op))
  {
  }

  lemma {:induction false} NetworkWriteOfPolicy(op: NetworkOp)
    requires NetworkPolicy(op).verb != Get
    ensures OpOf(NetworkPolicy(op).verb, ShapeOf(NetworkPolicy(op).segs)) == Some(OfNetwork(op))
  {
  }

  lemma {:induction false} NetworkOpOfPolicy(op: NetworkOp)
    ensures OpOf(NetworkPolicy(op).verb, ShapeOf(NetworkPolicy(op).segs)) == Some(OfNetwork(op))
  {
    hide NetworkPolicy, OpOf, ShapeOf;
    if NetworkPolicy(op).verb == Get {
      NetworkReadOfPolicy(op);
    } else {
      NetworkWriteOfPolicy(op);
    }
  }

  lemma {:induction false} OwnerOpOfPolicy(op: OwnerOp)
    ensures OpOf(OwnerPolicy(op).verb, ShapeOf(OwnerPolicy(op).segs)) == Some(OfOwner(op))
  {
    match op
    case GetVMNetworkInterfaces =>
    case SetVMNetworkInterface =>
    case GetInstanceNetworkInterfaces =>
    case SetInstanceNetworkInterface =>
  }

  lemma {:induction false} PlatformOpOfPolicy(op: PlatformOp)
    ensures OpOf(PlatformPolicy(op).verb, ShapeOf(PlatformPolicy(op).segs)) == Some(OfPlatform(op))
  {
    match op
    case ListPlatformEIPs =>
    case GetPlatformEIP =>
    case ReleasePlatformEIP =>
    case CreateDefaultVPCEgress =>
    case GetDefaultVPCEgress =>
    case GetCurrentDefaultVPCEgress =>
    case DeleteDefaultVPCEgress =>
    case CreateVirtualSwitch =>
    case GetVirtualSwitch =>
    case ListVirtualSwitches =>
    case DeleteVirtualSwitch =>
    case CreateVlanNetwork =>
    case GetVlanNetwork =>
    case ListVlanNetworks =>
    case DeleteVlanNetwork =>
    case CreateEgressGateway =>
    case GetEgressGateway =>
    case ListEgressGateways =>
    case DeleteEgressGateway =>
    case CreatePublicAddressPool =>
    case GetPublicAddressPool =>
    case ListPublicAddressPools =>
    case DeletePublicAddressPool =>
    case RecordPublicPoolVerification =>
    case SetPublicPoolAllocationEnabled =>
    case SetDefaultPublicPool =>
    case CreateIntranetAddressPool =>
    case GetIntranetAddressPool =>
    case GetIntranetPoolDefaults =>
    case ListIntranetAddressPools =>
    case DeleteIntranetAddressPool =>
    case RecordIntranetPoolVerification =>
    case SetIntranetPoolAllocationEnabled =>
    case SetDefaultIntranetPool =>
    case SetIntranetPoolAutoAllocationEnabled =>
    case GetPlatformNetworkCapabilities =>
    case GetPlatformOperation =>
  }

  /** So no two operations have the same verb and the same words at the same places. */
  lemma {:induction false} OpOfPolicy(op: Op)
    ensures OpOf(PolicyOf(op).verb, ShapeOf(PolicyOf(op).segs)) == Some(op)
  {
    hide OpOf, ShapeOf, NetworkPolicy, OwnerPolicy, PlatformPolicy;
    match op
    case OfNetwork(n) => NetworkOpOfPolicy(n);
    case OfOwner(o) => OwnerOpOfPolicy(o);
    case OfPlatform(p) => PlatformOpOfPolicy(p);
  }
}
