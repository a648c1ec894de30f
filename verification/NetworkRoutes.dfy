/** Which network operation a request is for: networkHTTPRoute and networkRouteValues in
    pkg/middleware/auth/network_policy.go:248-300, and platformNetworkHTTPRoute in
    pkg/middleware/auth/platform_network_policy.go:151-175. */
module NetworkRoutes {
  import opened Basics
  import opened NetworkTable

  // ---------- Ids ----------

  datatype IdForm = Hex32(prefix: string) | Uuid | Primary | Rule

  predicate IsHex(c: char) {
    IsDigit(c) || 'a' <= c <= 'f'
  }

  predicate AllHex(s: string) {
    forall i :: 0 <= i < |s| ==> IsHex(s[i])
  }

  predicate Prefixed(prefix: string, s: string) {
    |s| == |prefix| + 32 && prefix <= s && AllHex(s[|prefix|..])
  }

  predicate Fits(form: IdForm, s: string) {
    match form
    case Hex32(prefix) => Prefixed(prefix, s)
    case Uuid =>
      |s| == 36
      && forall i :: 0 <= i < 36 ==> if i == 8 || i == 13 || i == 18 || i == 23 then s[i] == '-' else IsHex(s[i])
    case Primary => s == "primary"
    case Rule => Prefixed("sgr_", s) || s == "sgr_default_ingress_drop"
  }

  /** networkIDPatterns. */
  function NetworkForm(field: string): Option<IdForm> {
    if field == "vm_id" || field == "instance_id" || field == "operation_id" then Some(Uuid)
    else if field == "slot" then Some(Primary)
    else if field == "vnic_id" then Some(Hex32("vnic_"))
    else if field == "security_group_id" || field == "security_group_ids" then Some(Hex32("sg_"))
    else if field == "rule_id" then Some(Rule)
    else if field == "vpc_id" then Some(Hex32("vpc_"))
    else if field == "subnet_id" then Some(Hex32("subnet_"))
    else if field == "eip_id" || field == "public_eip_id" then Some(Hex32("eip_"))
    else if field == "binding_id" then Some(Hex32("snat_"))
    else if field == "load_balancer_id" then Some(Hex32("lb_"))
    else None
  }

  /** platformNetworkIDPatterns. */
  function PlatformForm(field: string): Option<IdForm> {
    if field == "eip_id" then Some(Hex32("eip_"))
    else if field == "egress_id" then Some(Hex32("dve_"))
    else if field == "virtual_switch_id" then Some(Hex32("vsw_"))
    else if field == "pool_id" then Some(Hex32("pool_"))
    else if field == "gateway_id" then Some(Hex32("egw_"))
    else if field == "vlan_network_id" then Some(Hex32("vlan_"))
    else if field == "device_id" then Some(Hex32("device_"))
    else if field == "operation_id" then Some(Uuid)
    else None
  }

  predicate ValidId(platform: bool, field: string, s: string) {
    var form := if platform then PlatformForm(field) else NetworkForm(field);
    form.Some? && Fits(form.value, s)
  }

  /** The tag and 32 lower-case hexadecimal digits. */
  ghost predicate Tagged(tag: string, s: string) {
    exists h :: |h| == 32 && AllHex(h) && s == tag + h
  }

  ghost predicate Dashed(a: string, b: string, c: string, d: string, e: string, s: string) {
    |a| == 8 && |b| == |c| == |d| == 4 && |e| == 12
    && AllHex(a) && AllHex(b) && AllHex(c) && AllHex(d) && AllHex(e)
    && s == a + "-" + (b + "-" + (c + "-" + (d + "-" + e)))
  }

  /** Groups of 8, 4, 4, 4 and 12 lower-case hexadecimal digits, with a dash between them. */
  ghost predicate IsUuid(s: string) {
    exists a, b, c, d, e :: Dashed(a, b, c, d, e, s)
  }

  lemma {:induction false} TaggedIff(tag: string, s: string)
    ensures Prefixed(tag, s) <==> Tagged(tag, s)
  {
    if Prefixed(tag, s) {
      assert s == tag + s[|tag|..];
    }
    if h :| |h| == 32 && AllHex(h) && s == tag + h {
      assert s[|tag|..] == h;
    }
  }

  /** Groups up to a dash and the groups after it. */
  lemma {:induction false} HexDash(x: string, t: string, s: string, i: int)
    requires AllHex(x) && s == x + "-" + t && 0 <= i < |s|
    ensures i < |x| ==> IsHex(s[i])
    ensures i == |x| ==> s[i] == '-'
    ensures i > |x| ==> s[i] == t[i - |x| - 1]
  {
    hide IsHex;
  }

  lemma {:induction false} UuidAt(a: string, b: string, c: string, d: string, e: string, s: string, i: int)
    requires Dashed(a, b, c, d, e, s) && 0 <= i < 36
    ensures |s| == 36
    ensures if i == 8 || i == 13 || i == 18 || i == 23 then s[i] == '-' else IsHex(s[i])
  {
    var v := d + "-" + e;
    var u := c + "-" + v;
    var t := b + "-" + u;
    assert |s| == 36 && |t| == 27 && |u| == 22 && |v| == 17;
    HexDash(a, t, s, i);
    if i > 8 {
      HexDash(b, u, t, i - 9);
    }
    if i > 13 {
      HexDash(c, v, u, i - 14);
    }
    if i > 18 {
      HexDash(d, e, v, i - 19);
    }
    hide IsHex;
  }

  lemma {:induction false} UuidFits(s: string)
    requires IsUuid(s)
    ensures Fits(Uuid, s)
  {
    hide Dashed, IsHex;
    var a, b, c, d, e :| Dashed(a, b, c, d, e, s);
    forall i | 0 <= i < 36
      ensures |s| == 36
      ensures if i == 8 || i == 13 || i == 18 || i == 23 then s[i] == '-' else IsHex(s[i])
    {
      UuidAt(a, b, c, d, e, s, i);
    }
    UuidAt(a, b, c, d, e, s, 0);
  }

  /** The five groups of a text that fits. */
  lemma {:induction false} UuidSplits(s: string)
    requires Fits(Uuid, s)
    ensures IsUuid(s)
  {
    var a, b, c, d, e := s[..8], s[9..13], s[14..18], s[19..23], s[24..];
    assert AllHex(a) && AllHex(b) && AllHex(c) && AllHex(d) && AllHex(e);
    hide AllHex, IsHex, Fits;
    assert s[19..] == d + "-" + e;
    assert s[14..] == c + "-" + s[19..];
    assert s[9..] == b + "-" + s[14..];
    assert s == a + "-" + s[9..];
    assert Dashed(a, b, c, d, e, s);
  }

  lemma {:induction false} UuidIff(s: string)
    ensures Fits(Uuid, s) <==> IsUuid(s)
  {
    if Fits(Uuid, s) {
      UuidSplits(s);
    }
    if IsUuid(s) {
      UuidFits(s);
    }
  }

  lemma {:induction false} FitsIff(form: IdForm, s: string)
    ensures form == Uuid ==> (Fits(form, s) <==> IsUuid(s))
    ensures form.Hex32? ==> (Fits(form, s) <==> Tagged(form.prefix, s))
    ensures form == Rule ==> (Fits(form, s) <==> Tagged("sgr_", s) || s == "sgr_default_ingress_drop")
    ensures form == Primary ==> (Fits(form, s) <==> s == "primary")
  {
    UuidIff(s);
    TaggedIff("sgr_", s);
    if form.Hex32? {
      TaggedIff(form.prefix, s);
    }
    hide Prefixed, Tagged, IsUuid;
  }

  lemma {:induction false} NetworkForms()
    ensures NetworkForm("vm_id") == NetworkForm("instance_id") == NetworkForm("operation_id") == Some(Uuid)
    ensures NetworkForm("slot") == Some(Primary) && NetworkForm("rule_id") == Some(Rule)
    ensures NetworkForm("vnic_id") == Some(Hex32("vnic_"))
    ensures NetworkForm("security_group_id") == NetworkForm("security_group_ids") == Some(Hex32("sg_"))
  {
  }

  lemma {:induction false} MoreNetworkForms()
    ensures NetworkForm("vpc_id") == Some(Hex32("vpc_")) && NetworkForm("subnet_id") == Some(Hex32("subnet_"))
    ensures NetworkForm("eip_id") == NetworkForm("public_eip_id") == Some(Hex32("eip_"))
    ensures NetworkForm("binding_id") == Some(Hex32("snat_"))
    ensures NetworkForm("load_balancer_id") == Some(Hex32("lb_"))
  {
  }

  /** Which texts each field of the network routes takes. */
  lemma {:induction false} NetworkIds(s: string)
    ensures ValidId(false, "vm_id", s) <==> IsUuid(s)
    ensures ValidId(false, "instance_id", s) <==> IsUuid(s)
    ensures ValidId(false, "operation_id", s) <==> IsUuid(s)
    ensures ValidId(false, "slot", s) <==> s == "primary"
    ensures ValidId(false, "rule_id", s) <==> Tagged("sgr_", s) || s == "sgr_default_ingress_drop"
    ensures ValidId(false, "vnic_id", s) <==> Tagged("vnic_", s)
    ensures ValidId(false, "security_group_id", s) <==> Tagged("sg_", s)
    ensures ValidId(false, "security_group_ids", s) <==> Tagged("sg_", s)
    ensures ValidId(false, "vpc_id", s) <==> Tagged("vpc_", s)
    ensures ValidId(false, "subnet_id", s) <==> Tagged("subnet_", s)
    ensures ValidId(false, "eip_id", s) <==> Tagged("eip_", s)
    ensures ValidId(false, "public_eip_id", s) <==> Tagged("eip_", s)
    ensures ValidId(false, "binding_id", s) <==> Tagged("snat_", s)
    ensures ValidId(false, "load_balancer_id", s) <==> Tagged("lb_", s)
  {
    forall form: IdForm
      ensures form == Uuid ==> (Fits(form, s) <==> IsUuid(s))
      ensures form.Hex32? ==> (Fits(form, s) <==> Tagged(form.prefix, s))
      ensures form == Rule ==> (Fits(form, s) <==> Tagged("sgr_", s) || s == "sgr_default_ingress_drop")
      ensures form == Primary ==> (Fits(form, s) <==> s == "primary")
    {
      FitsIff(form, s);
    }
    NetworkForms();
    MoreNetworkForms();
    hide NetworkForm, Fits, Tagged, IsUuid;
  }

  /** And of the platform routes. */
  lemma {:induction false} PlatformIds(s: string)
    ensures ValidId(true, "operation_id", s) <==> IsUuid(s)
    ensures ValidId(true, "eip_id", s) <==> Tagged("eip_", s)
    ensures ValidId(true, "egress_id", s) <==> Tagged("dve_", s)
    ensures ValidId(true, "virtual_switch_id", s) <==> Tagged("vsw_", s)
    ensures ValidId(true, "pool_id", s) <==> Tagged("pool_", s)
    ensures ValidId(true, "gateway_id", s) <==> Tagged("egw_", s)
    ensures ValidId(true, "vlan_network_id", s) <==> Tagged("vlan_", s)
    ensures ValidId(true, "device_id", s) <==> Tagged("device_", s)
  {
    UuidIff(s);
    TaggedIff("eip_", s);
    TaggedIff("dve_", s);
    TaggedIff("vsw_", s);
    TaggedIff("pool_", s);
    TaggedIff("egw_", s);
    TaggedIff("vlan_", s);
    TaggedIff("device_", s);
    hide Prefixed, Tagged, IsUuid;
  }

  // ---------- Words and ids do not overlap ----------

  datatype Mark = Mark(length: nat, first: char, middle: char)

  function MarkOf(s: string): Mark {
    if s == "" then Mark(0, ' ', ' ') else Mark(|s|, s[0], s[|s| / 2])
  }

  predicate PlainChar(c: char) {
    c != '/' && c != '_' && c != '{' && c != '}'
  }

  predicate Plain(s: string) {
    forall i :: 0 <= i < |s| ==> PlainChar(s[i])
  }

  function WordMark(w: Word): Mark {
    match w
    case Root => Mark(0, ' ', ' ')
    case Api => Mark(3, 'a', 'p')
    case V1 => Mark(2, 'v', '1')
    case Networks => Mark(8, 'n', 'o')
    case Instances => Mark(9, 'i', 'a')
    case Vnics => Mark(5, 'v', 'i')
    case BindingTargets => Mark(15, 'b', '-')
    case Eips => Mark(4, 'e', 'p')
    case SecurityGroups => Mark(15, 's', 'y')
    case Operations => Mark(10, 'o', 't')
    case Rules => Mark(5, 'r', 'l')
    case Bindings => Mark(8, 'b', 'i')
    case VpcCidrPresets => Mark(16, 'v', '-')
    case Vpcs => Mark(4, 'v', 'c')
    case AssociatedInstances => Mark(20, 'a', '-')
    case Subnets => Mark(7, 's', 'n')
    case Snat => Mark(4, 's', 'a')
    case LoadBalancers => Mark(14, 'l', 'l')
    case VirtualMachines => Mark(16, 'v', 'm')
    case NetworkInterfaces => Mark(18, 'n', 'n')
    case Admin => Mark(5, 'a', 'm')
    case DefaultVpcEgresses => Mark(20, 'd', 'c')
    case DefaultVpcEgress => Mark(18, 'd', 'p')
    case VirtualSwitches => Mark(16, 'v', 's')
    case VlanNetworks => Mark(13, 'v', 'e')
    case EgressGateways => Mark(15, 'e', 'g')
    case PublicAddressPools => Mark(20, 'p', 'r')
    case Verification => Mark(12, 'v', 'c')
    case Allocation => Mark(10, 'a', 'a')
    case Default => Mark(7, 'd', 'a')
    case IntranetAddressPools => Mark(22, 'i', 'd')
    case IntranetAddressPoolDefaults => Mark(30, 'i', 's')
    case AutoAllocation => Mark(15, 'a', 'l')
    case Capabilities => Mark(12, 'c', 'l')
  }

  predicate IsText(s: string, m: Mark) {
    Plain(s) && MarkOf(s) == m
  }

  lemma {:induction false} Words1()
    ensures IsText("", Mark(0, ' ', ' '))
    ensures IsText("api", Mark(3, 'a', 'p'))
    ensures IsText("v1", Mark(2, 'v', '1'))
    ensures IsText("networks", Mark(8, 'n', 'o'))
    ensures IsText("instances", Mark(9, 'i', 'a'))
    ensures IsText("vnics", Mark(5, 'v', 'i'))
    ensures IsText("binding-targets", Mark(15, 'b', '-'))
    ensures IsText("eips", Mark(4, 'e', 'p'))
    ensures IsText("security-groups", Mark(15, 's', 'y'))
    ensures IsText("operations", Mark(10, 'o', 't'))
  {
  }

  lemma {:induction false} Words2()
    ensures IsText("rules", Mark(5, 'r', 'l'))
    ensures IsText("bindings", Mark(8, 'b', 'i'))
    ensures IsText("vpc-cidr-presets", Mark(16, 'v', '-'))
    ensures IsText("vpcs", Mark(4, 'v', 'c'))
    ensures IsText("associated-instances", Mark(20, 'a', '-'))
    ensures IsText("subnets", Mark(7, 's', 'n'))
    ensures IsText("snat", Mark(4, 's', 'a'))
    ensures IsText("load-balancers", Mark(14, 'l', 'l'))
  {
  }

  lemma {:induction false} Words3()
    ensures IsText("virtual-machines", Mark(16, 'v', 'm'))
    ensures IsText("network-interfaces", Mark(18, 'n', 'n'))
    ensures IsText("admin", Mark(5, 'a', 'm'))
    ensures IsText("default-vpc-egresses", Mark(20, 'd', 'c'))
    ensures IsText("default-vpc-egress", Mark(18, 'd', 'p'))
  {
  }

  lemma {:induction false} Words4()
    ensures IsText("virtual-switches", Mark(16, 'v', 's'))
    ensures IsText("vlan-networks", Mark(13, 'v', 'e'))
    ensures IsText("egress-gateways", Mark(15, 'e', 'g'))
    ensures IsText("public-address-pools", Mark(20, 'p', 'r'))
    ensures IsText("verification", Mark(12, 'v', 'c'))
  {
  }

  lemma {:induction false} Words5()
    ensures IsText("allocation", Mark(10, 'a', 'a'))
    ensures IsText("default", Mark(7, 'd', 'a'))
    ensures IsText("intranet-address-pools", Mark(22, 'i', 'd'))
    ensures IsText("intranet-address-pool-defaults", Mark(30, 'i', 's'))
    ensures IsText("auto-allocation", Mark(15, 'a', 'l'))
  {
  }

  lemma {:induction false} Words6()
    ensures IsText("capabilities", Mark(12, 'c', 'l'))
  {
  }

  lemma {:induction false} TextIs(w: Word)
    ensures IsText(Text(w), WordMark(w))
  {
    hide IsText;
    match w
    case Root => Words1();
    case Api => Words1();
    case V1 => Words1();
    case Networks => Words1();
    case Instances => Words1();
    case Vnics => Words1();
    case BindingTargets => Words1();
    case Eips => Words1();
    case SecurityGroups => Words1();
    case Operations => Words1();
    case Rules => Words2();
    case Bindings => Words2();
    case VpcCidrPresets => Words2();
    case Vpcs => Words2();
    case AssociatedInstances => Words2();
    case Subnets => Words2();
    case Snat => Words2();
    case LoadBalancers => Words2();
    case VirtualMachines => Words3();
    case NetworkInterfaces => Words3();
    case Admin => Words3();
    case DefaultVpcEgresses => Words3();
    case DefaultVpcEgress => Words3();
    case VirtualSwitches => Words4();
    case VlanNetworks => Words4();
    case EgressGateways => Words4();
    case PublicAddressPools => Words4();
    case Verification => Words4();
    case Allocation => Words5();
    case Default => Words5();
    case IntranetAddressPools => Words5();
    case IntranetAddressPoolDefaults => Words5();
    case AutoAllocation => Words5();
    case Capabilities => Words6();
  }

  lemma {:induction false} MarkShort(w: Word)
    ensures WordMark(w).length < 36
  {
  }

  lemma {:induction false} TextMark(w: Word)
    ensures MarkOf(Text(w)) == WordMark(w) && |Text(w)| < 36 && Plain(Text(w))
  {
    hide Text, WordMark;
    TextIs(w);
    MarkShort(w);
  }

  lemma {:induction false} MarkNotPrimary(w: Word)
    ensures WordMark(w) != Mark(7, 'p', 'm')
  {
  }

  lemma {:induction false} TextNotPrimary(w: Word)
    ensures Text(w) != "primary"
  {
    TextMark(w);
    MarkNotPrimary(w);
    hide Text, WordMark;
    assert MarkOf("primary") == Mark(7, 'p', 'm');
  }

  lemma {:induction false} ShortMarks(a: Word, b: Word)
    requires WordMark(a) == WordMark(b) && WordMark(a).length <= 10
    ensures a == b
  {
  }

  lemma {:induction false} LongMarks(a: Word, b: Word)
    requires WordMark(a) == WordMark(b) && WordMark(a).length > 10
    ensures a == b
  {
  }

  lemma {:induction false} MarkInjective(a: Word, b: Word)
    requires WordMark(a) == WordMark(b)
    ensures a == b
  {
    hide WordMark;
    if WordMark(a).length <= 10 {
      ShortMarks(a, b);
    } else {
      LongMarks(a, b);
    }
  }

  lemma {:induction false} TextInjective(a: Word, b: Word)
    requires Text(a) == Text(b)
    ensures a == b
  {
    hide Text, MarkOf;
    TextMark(a);
    TextMark(b);
    MarkInjective(a, b);
  }

  /** The word a segment is, if it is one. */
  ghost function WordOf(s: string): Option<Word> {
    if w :| Text(w) == s then Some(w) else None
  }

  lemma {:induction false} WordOfText(w: Word)
    ensures WordOf(Text(w)) == Some(w)
  {
    hide Text;
    forall v | Text(v) == Text(w) ensures v == w {
      TextInjective(v, w);
    }
  }

  predicate PrefixOk(prefix: string) {
    '_' in prefix && '/' !in prefix
  }

  lemma {:induction false} PrefixesOk()
    ensures PrefixOk("vnic_") && PrefixOk("sg_") && PrefixOk("vpc_") && PrefixOk("subnet_") && PrefixOk("eip_")
    ensures PrefixOk("snat_") && PrefixOk("lb_") && PrefixOk("dve_") && PrefixOk("vsw_") && PrefixOk("pool_")
    ensures PrefixOk("egw_") && PrefixOk("vlan_") && PrefixOk("device_") && PrefixOk("sgr_")
  {
    assert "vnic_"[4] == '_' && "sg_"[2] == '_' && "vpc_"[3] == '_' && "subnet_"[6] == '_' && "eip_"[3] == '_';
    assert "snat_"[4] == '_' && "lb_"[2] == '_' && "dve_"[3] == '_' && "vsw_"[3] == '_' && "pool_"[4] == '_';
    assert "egw_"[3] == '_' && "vlan_"[4] == '_' && "device_"[6] == '_' && "sgr_"[3] == '_';
  }

  lemma {:induction false} FormsAre(platform: bool, field: string)
    ensures var form := if platform then PlatformForm(field) else NetworkForm(field);
            form.Some? && form.value.Hex32? ==> PrefixOk(form.value.prefix)
  {
    hide PrefixOk;
    PrefixesOk();
  }

  /** An id is never one of the literal segments, and stays within its segment. */
  lemma {:induction false} IdIsNoWord(platform: bool, field: string, s: string)
    requires ValidId(platform, field, s)
    ensures WordOf(s) == None && '/' !in s
  {
    FormsAre(platform, field);
    var form := (if platform then PlatformForm(field) else NetworkForm(field)).value;
    hide PlatformForm, NetworkForm;
    IdText(form, s);
    forall w ensures Text(w) != s {
      TextMark(w);
      TextNotPrimary(w);
    }
  }

  lemma {:induction false} IdText(form: IdForm, s: string)
    requires Fits(form, s)
    requires form.Hex32? ==> PrefixOk(form.prefix)
    ensures '/' !in s && (|s| == 36 || s == "primary" || !Plain(s))
  {
    match form
    case Hex32(prefix) =>
      PrefixedText(prefix, s);
    case Rule =>
      if Prefixed("sgr_", s) {
        PrefixesOk();
        PrefixedText("sgr_", s);
      } else {
        assert s[3] == '_' && !PlainChar(s[3]);
      }
    case _ =>
  }

  lemma {:induction false} PrefixedText(prefix: string, s: string)
    requires Prefixed(prefix, s) && PrefixOk(prefix)
    ensures '/' !in s && !Plain(s)
  {
    var i :| 0 <= i < |prefix| && prefix[i] == '_';
    assert s[i] == '_';
    forall k | 0 <= k < |s| ensures s[k] != '/' {
      if k >= |prefix| {
        assert s[k] == s[|prefix|..][k - |prefix|];
      }
    }
  }

  // ---------- At most one operation matches ----------

  predicate SegFits(platform: bool, seg: Seg, part: string) {
    match seg
    case Lit(w) => part == Text(w)
    case Param(field) => ValidId(platform, FieldText(field), part)
  }

  predicate SegsFit(platform: bool, segs: seq<Seg>, parts: seq<string>) {
    |segs| == |parts| && forall i :: 0 <= i < |segs| ==> SegFits(platform, segs[i], parts[i])
  }

  ghost function WordsOf(parts: seq<string>): Shape {
    seq(|parts|, i requires 0 <= i < |parts| => WordOf(parts[i]))
  }

  /** A path that fits a pattern has the pattern's words, and none where the pattern has an id. */
  lemma {:induction false} FitHasShape(platform: bool, segs: seq<Seg>, parts: seq<string>)
    requires SegsFit(platform, segs, parts)
    ensures WordsOf(parts) == ShapeOf(segs)
  {
    hide Text, ValidId, WordOf;
    forall i | 0 <= i < |segs| ensures WordOf(parts[i]) == if segs[i].Lit? then Some(segs[i].word) else None {
      assert SegFits(platform, segs[i], parts[i]);
      match segs[i]
      case Lit(w) => WordOfText(w);
      case Param(field) => IdIsNoWord(platform, FieldText(field), parts[i]);
    }
  }

  lemma {:induction false} VerbInjective(a: Verb, b: Verb)
    requires VerbText(a) == VerbText(b)
    ensures a == b
  {
    assert "GET"[0] == 'G' && "POST"[1] == 'O' && "PUT"[1] == 'U' && "PATCH"[1] == 'A' && "DELETE"[0] == 'D';
  }

  /** Segments between slashes: strings.Split(s, "/"). */
  function Split(s: string): (parts: seq<string>)
    ensures parts != []
  {
    if s == "" then [""]
    else
      var rest := Split(s[1..]);
      if s[0] == '/' then [""] + rest else [[s[0]] + rest[0]] + rest[1..]
  }

  /** The operation is registered for the request. */
  predicate Handles(op: Op, verb: string, path: string) {
    VerbText(PolicyOf(op).verb) == verb && SegsFit(op.OfPlatform?, PolicyOf(op).segs, Split(path))
  }

  lemma {:induction false} AtMostOneHandles(a: Op, b: Op, verb: string, path: string)
    requires Handles(a, verb, path) && Handles(b, verb, path)
    ensures a == b
  {
    hide PolicyOf, SegsFit, OpOf, VerbText;
    VerbInjective(PolicyOf(a).verb, PolicyOf(b).verb);
    FitHasShape(a.OfPlatform?, PolicyOf(a).segs, Split(path));
    FitHasShape(b.OfPlatform?, PolicyOf(b).segs, Split(path));
    OpOfPolicy(a);
    OpOfPolicy(b);
  }

  // ---------- Patterns as strings ----------

  /** A field name as it stands between braces. */
  predicate Bare(s: string) {
    s != "" && forall i :: 0 <= i < |s| ==> s[i] != '/' && s[i] != '{' && s[i] != '}'
  }

  lemma {:induction false} Fields1()
    ensures Bare("vnic_id") && Bare("eip_id") && Bare("operation_id")
    ensures Bare("security_group_id") && Bare("rule_id") && Bare("vpc_id")
  {
  }

  lemma {:induction false} Fields2()
    ensures Bare("subnet_id") && Bare("binding_id") && Bare("load_balancer_id")
    ensures Bare("vm_id") && Bare("slot") && Bare("instance_id")
  {
  }

  lemma {:induction false} Fields3()
    ensures Bare("egress_id") && Bare("virtual_switch_id") && Bare("vlan_network_id")
    ensures Bare("gateway_id") && Bare("pool_id")
  {
  }

  lemma {:induction false} FieldBare(f: Field)
    ensures Bare(FieldText(f))
  {
    hide Bare;
    Fields1();
    Fields2();
    Fields3();
  }

  function SegText(seg: Seg): string {
    match seg
    case Lit(w) => Text(w)
    case Param(f) => "{" + FieldText(f) + "}"
  }

  function Texts(segs: seq<Seg>): seq<string> {
    seq(|segs|, i requires 0 <= i < |segs| => SegText(segs[i]))
  }

  function Pattern(op: Op): string {
    if PolicyOf(op).segs == [] then "" else Join(Texts(PolicyOf(op).segs), "/")
  }

  lemma {:induction false} SplitPart(part: string, s: string)
    requires '/' !in part
    ensures Split(part) == [part]
    ensures Split(part + ("/" + s)) == [part] + Split(s)
  {
    if part == "" {
      assert part + ("/" + s) == "/" + s;
      assert ("/" + s)[1..] == s;
    } else {
      assert (part + ("/" + s))[1..] == part[1..] + ("/" + s);
      SplitPart(part[1..], s);
      assert [part[0]] + part[1..] == part;
    }
  }

  lemma {:induction false} SplitJoin(parts: seq<string>)
    requires parts != [] && forall i :: 0 <= i < |parts| ==> '/' !in parts[i]
    ensures Split(Join(parts, "/")) == parts
  {
    SplitPart(parts[0], if |parts| > 1 then Join(parts[1..], "/") else "");
    if |parts| > 1 {
      assert parts[0] + "/" + Join(parts[1..], "/") == parts[0] + ("/" + Join(parts[1..], "/"));
      SplitJoin(parts[1..]);
    }
  }

  ghost predicate NoneHasSlash(parts: seq<string>) {
    forall i :: 0 <= i < |parts| ==> '/' !in parts[i]
  }

  lemma {:induction false} JoinGrows(c: char, parts: seq<string>)
    requires parts != [] && c != '/' && NoneHasSlash(parts)
    ensures Join([[c] + parts[0]] + parts[1..], "/") == [c] + Join(parts, "/")
    ensures NoneHasSlash([[c] + parts[0]] + parts[1..])
  {
    var first := [c] + parts[0];
    assert ([first] + parts[1..])[1..] == parts[1..];
    if |parts| > 1 {
      assert [c] + parts[0] + "/" + Join(parts[1..], "/") == [c] + (parts[0] + "/" + Join(parts[1..], "/"));
    }
  }

  lemma {:induction false} JoinSplit(s: string)
    ensures Join(Split(s), "/") == s && NoneHasSlash(Split(s))
  {
    if s != "" {
      JoinSplit(s[1..]);
      var rest := Split(s[1..]);
      assert s == [s[0]] + s[1..];
      if s[0] == '/' {
        assert ([""] + rest)[1..] == rest;
        assert "" + "/" + s[1..] == [s[0]] + s[1..];
      } else {
        JoinGrows(s[0], rest);
      }
    }
  }

  lemma {:induction false} SegTextNoSlash(seg: Seg)
    ensures '/' !in SegText(seg)
    ensures seg.Lit? ==> Plain(SegText(seg))
  {
    hide Text, FieldText;
    match seg
    case Lit(w) => TextMark(w);
    case Param(f) => FieldBare(f);
  }

  // ---------- networkRouteValues ----------

  function TrimBraces(s: string): string {
    TrimChars(s, {'{', '}'})
  }

  predicate Opens(part: string) {
    part != "" && part[0] == '{'
  }

  predicate Closes(part: string) {
    part != "" && part[|part| - 1] == '}'
  }

  type Values = map<string, string>

  /** One turn of the loop over the segments. */
  function Turn(values: Values, part: string, actual: string): Option<Values> {
    if !Opens(part) then if part == actual then Some(values) else None
    else if !Closes(part) then None
    else if ValidId(false, TrimBraces(part), actual) then Some(values[TrimBraces(part) := actual])
    else None
  }

  function ValuesOf(expected: seq<string>, actual: seq<string>): Option<Values>
    requires |expected| == |actual|
  {
    if expected == [] then Some(map[])
    else
      var last := |expected| - 1;
      var values := ValuesOf(expected[..last], actual[..last]);
      if values.None? then None else Turn(values.value, expected[last], actual[last])
  }

  method NetworkRouteValues(pattern: string, path: string) returns (r: Option<Values>)
    ensures r == if |Split(pattern)| == |Split(path)| then ValuesOf(Split(pattern), Split(path)) else None
  {
    var expected, actual := Split(pattern), Split(path);
    if |expected| != |actual| {
      return None;
    }
    var values: Values := map[];
    for i := 0 to |expected|
      invariant ValuesOf(expected[..i], actual[..i]) == Some(values)
    {
      assert expected[..i + 1][..i] == expected[..i] && actual[..i + 1][..i] == actual[..i];
      var part := expected[i];
      if !Opens(part) {
        if part != actual[i] {
          Stopped(expected, actual, i + 1);
          return None;
        }
      } else {
        if !Closes(part) {
          Stopped(expected, actual, i + 1);
          return None;
        }
        var field := TrimBraces(part);
        var form := NetworkForm(field);
        if form == None || !Fits(form.value, actual[i]) {
          Stopped(expected, actual, i + 1);
          return None;
        }
        values := values[field := actual[i]];
      }
    }
    assert expected[..|expected|] == expected && actual[..|actual|] == actual;
    r := Some(values);
  }

  lemma {:induction false} Stopped(expected: seq<string>, actual: seq<string>, i: nat)
    requires |expected| == |actual| && i <= |expected|
    requires ValuesOf(expected[..i], actual[..i]) == None
    ensures ValuesOf(expected, actual) == None
    decreases |expected|
  {
    if i == |expected| {
      assert expected[..i] == expected && actual[..i] == actual;
    } else {
      var last := |expected| - 1;
      assert expected[..last][..i] == expected[..i] && actual[..last][..i] == actual[..i];
      Stopped(expected[..last], actual[..last], i);
    }
  }

  lemma {:induction false} TrimParam(s: string)
    requires Bare(s)
    ensures TrimBraces("{" + s + "}") == s
  {
    var t := "{" + s + "}";
    assert t[1..] == s + "}" && t[0] == '{';
    assert TrimLeft(s + "}", {'{', '}'}) == s + "}";
    assert (s + "}")[..|s|] == s && (s + "}")[|s|] == '}';
    assert TrimRight(s, {'{', '}'}) == s;
  }

  lemma {:induction false} TurnIsFit(values: Values, seg: Seg, part: string)
    ensures Turn(values, SegText(seg), part) ==
            if !SegFits(false, seg, part) then None
            else if seg.Lit? then Some(values)
            else Some(values[FieldText(seg.field) := part])
  {
    hide Text, FieldText, ValidId;
    SegTextNoSlash(seg);
    if seg.Param? {
      FieldBare(seg.field);
      TrimParam(FieldText(seg.field));
    }
  }

  /** The values of the fields, the last one where a field is repeated. */
  function FieldValues(segs: seq<Seg>, parts: seq<string>): Values
    requires |segs| == |parts|
  {
    if segs == [] then map[]
    else
      var last := |segs| - 1;
      var values := FieldValues(segs[..last], parts[..last]);
      if segs[last].Param? then values[FieldText(segs[last].field) := parts[last]] else values
  }

  lemma {:induction false} SegsFitStep(platform: bool, segs: seq<Seg>, parts: seq<string>)
    requires |segs| == |parts| > 0
    ensures var last := |segs| - 1;
            SegsFit(platform, segs, parts) <==>
            SegsFit(platform, segs[..last], parts[..last]) && SegFits(platform, segs[last], parts[last])
  {
    hide SegFits;
  }

  lemma {:induction false} ValuesAreFields(segs: seq<Seg>, parts: seq<string>)
    requires |segs| == |parts|
    ensures ValuesOf(Texts(segs), parts) ==
            if SegsFit(false, segs, parts) then Some(FieldValues(segs, parts)) else None
  {
    hide Turn, SegFits, FieldText, SegText, SegsFit;
    if segs == [] {
      NothingFits(parts);
    } else {
      var last := |segs| - 1;
      assert Texts(segs)[..last] == Texts(segs[..last]);
      ValuesAreFields(segs[..last], parts[..last]);
      SegsFitStep(false, segs, parts);
      TurnIsFit(FieldValues(segs[..last], parts[..last]), segs[last], parts[last]);
    }
  }

  lemma {:induction false} NothingFits(parts: seq<string>)
    requires parts == []
    ensures SegsFit(false, [], parts)
  {
  }

  // ---------- platformNetworkHTTPRoute: prefix, id, suffix ----------

  function IndexByte(s: string, c: char): (r: Option<nat>)
    ensures r.Some? ==> r.value < |s| && s[r.value] == c
  {
    if s == "" then None
    else if s[0] == c then Some(0)
    else
      var r := IndexByte(s[1..], c);
      if r.Some? then Some(r.value + 1) else None
  }

  lemma {:induction false} IndexAfter(a: string, c: char, b: string)
    requires c !in a
    ensures IndexByte(a + ([c] + b), c) == Some(|a|)
  {
    if a != "" {
      assert (a + ([c] + b))[1..] == a[1..] + ([c] + b);
      IndexAfter(a[1..], c, b);
    }
  }

  lemma {:induction false} NoIndex(s: string, c: char)
    requires c !in s
    ensures IndexByte(s, c) == None
  {
    if s != "" {
      NoIndex(s[1..], c);
    }
  }

  datatype Found = Found(field: string, id: string)

  predicate HasSuffix(s: string, suffix: string) {
    |s| >= |suffix| && s[|s| - |suffix|..] == suffix
  }

  /** The body of the loop, for a policy whose method is that of the request. */
  method MatchPlatform(pattern: string, path: string) returns (r: Option<Found>)
    requires IndexByte(pattern, '{').Some? ==>
               IndexByte(pattern, '}').Some? && IndexByte(pattern, '{').value < IndexByte(pattern, '}').value
    ensures r == PlatformMatch(pattern, path)
  {
    hide ValidId, IndexByte, HasSuffix;
    var start := IndexByte(pattern, '{');
    if start == None {
      if pattern == path {
        return Some(Found("", ""));
      }
      return None;
    }
    var end := IndexByte(pattern, '}').value;
    var prefix, suffix := pattern[..start.value], pattern[end + 1..];
    if !(prefix <= path) || !HasSuffix(path, suffix) || |path| < |prefix| + |suffix| {
      return None;
    }
    var field := pattern[start.value + 1..end];
    var id := path[|prefix|..|path| - |suffix|];
    if ValidId(true, field, id) {
      return Some(Found(field, id));
    }
    r := None;
  }

  function PlatformMatch(pattern: string, path: string): Option<Found>
    requires IndexByte(pattern, '{').Some? ==>
               IndexByte(pattern, '}').Some? && IndexByte(pattern, '{').value < IndexByte(pattern, '}').value
  {
    var start := IndexByte(pattern, '{');
    if start == None then if pattern == path then Some(Found("", "")) else None
    else
      var end := IndexByte(pattern, '}').value;
      Between(pattern[..start.value], pattern[start.value + 1..end], pattern[end + 1..], path)
  }

  /** The id that path has between a prefix and a suffix, if it is one for the field. */
  function Between(prefix: string, field: string, suffix: string, path: string): Option<Found> {
    if prefix <= path && HasSuffix(path, suffix) && |path| >= |prefix| + |suffix|
       && ValidId(true, field, path[|prefix|..|path| - |suffix|])
    then Some(Found(field, path[|prefix|..|path| - |suffix|]))
    else None
  }

  lemma {:induction false} BetweenIs(prefix: string, field: string, suffix: string, path: string, id: string)
    ensures Between(prefix, field, suffix, path) == Some(Found(field, id)) <==>
            path == prefix + id + suffix && ValidId(true, field, id)
  {
    hide ValidId;
    if path == prefix + id + suffix {
      assert path[|prefix|..|path| - |suffix|] == id;
      assert path[..|prefix|] == prefix;
    }
    if Between(prefix, field, suffix, path) == Some(Found(field, id)) {
      assert path == path[..|prefix|] + path[|prefix|..|path| - |suffix|] + path[|path| - |suffix|..];
    }
  }

  function Before(parts: seq<string>): string {
    if parts == [] then "" else Join(parts, "/") + "/"
  }

  function After(parts: seq<string>): string {
    if parts == [] then "" else "/" + Join(parts, "/")
  }

  lemma {:induction false} JoinHead(x: string, b: seq<string>)
    ensures Join([x] + b, "/") == x + After(b)
  {
    if b != [] {
      assert ([x] + b)[1..] == b;
      Reassociate(x, "/", Join(b, "/"));
    } else {
      assert [x] + b == [x] && x + "" == x;
    }
  }

  lemma {:induction false} JoinTail(a: seq<string>, rest: seq<string>)
    requires rest != []
    ensures Join(a + rest, "/") == Before(a) + Join(rest, "/")
  {
    if a == [] {
      assert a + rest == rest && "" + Join(rest, "/") == Join(rest, "/");
    } else if |a| == 1 {
      assert (a + rest)[1..] == rest;
    } else {
      assert (a + rest)[1..] == a[1..] + rest && (a + rest)[0] == a[0];
      JoinTail(a[1..], rest);
      Reassociate(a[0] + "/", Before(a[1..]), Join(rest, "/"));
      Reassociate(a[0] + "/", Join(a[1..], "/"), "/");
    }
  }

  lemma {:induction false} JoinAround(a: seq<string>, x: string, b: seq<string>)
    ensures Join(a + [x] + b, "/") == Before(a) + x + After(b)
  {
    assert a + [x] + b == a + ([x] + b);
    JoinTail(a, [x] + b);
    JoinHead(x, b);
    Reassociate(Before(a), x, After(b));
  }

  ghost predicate Quiet(s: string) {
    forall i :: 0 <= i < |s| ==> s[i] != '{' && s[i] != '}'
  }

  lemma {:induction false} JoinQuiet(parts: seq<string>)
    requires parts != [] && forall i :: 0 <= i < |parts| ==> Plain(parts[i])
    ensures Quiet(Join(parts, "/"))
  {
    if |parts| > 1 {
      JoinQuiet(parts[1..]);
    }
  }

  /** The pattern has a single id, after a and before b. */
  ghost predicate OneId(segs: seq<Seg>, k: nat) {
    k < |segs| && segs[k].Param? && forall i :: 0 <= i < |segs| && i != k ==> segs[i].Lit?
  }

  lemma {:induction false} LiteralTexts(segs: seq<Seg>)
    requires forall i :: 0 <= i < |segs| ==> segs[i].Lit?
    ensures |Texts(segs)| == |segs| && forall i :: 0 <= i < |Texts(segs)| ==> Plain(Texts(segs)[i])
  {
    hide Plain, SegText;
    forall i | 0 <= i < |segs| ensures Plain(Texts(segs)[i]) {
      SegTextNoSlash(segs[i]);
    }
  }

  lemma {:induction false} NoSlashes(segs: seq<Seg>)
    ensures |Texts(segs)| == |segs| && forall i :: 0 <= i < |Texts(segs)| ==> '/' !in Texts(segs)[i]
  {
    hide SegText;
    forall i | 0 <= i < |segs| ensures '/' !in Texts(segs)[i] {
      SegTextNoSlash(segs[i]);
    }
  }

  ghost predicate IsCut(pattern: string, before: string, field: string, after: string) {
    && IndexByte(pattern, '{') == Some(|before|) && IndexByte(pattern, '}') == Some(|before| + 1 + |field|)
    && pattern[..|before|] == before && pattern[|before| + 1..|before| + 1 + |field|] == field
    && pattern[|before| + 1 + |field| + 1..] == after
  }

  lemma {:induction false} Cut(pattern: string, before: string, field: string, after: string)
    requires pattern == before + ("{" + field + "}") + after && Quiet(before) && Bare(field)
    ensures IsCut(pattern, before, field, after)
  {
    assert pattern == before + (['{'] + (field + "}" + after));
    IndexAfter(before, '{', field + "}" + after);
    assert pattern == (before + "{" + field) + (['}'] + after);
    IndexAfter(before + "{" + field, '}', after);
  }

  lemma {:induction false} BeforeQuiet(segs: seq<Seg>)
    requires forall i :: 0 <= i < |segs| ==> segs[i].Lit?
    ensures Quiet(Before(Texts(segs)))
  {
    LiteralTexts(segs);
    hide Texts, Join;
    if Texts(segs) != [] {
      JoinQuiet(Texts(segs));
    }
  }

  /** The pattern of one id, cut at its braces. */
  lemma {:induction false} CutPattern(segs: seq<Seg>, k: nat)
    requires OneId(segs, k)
    ensures IsCut(Join(Texts(segs), "/"), Before(Texts(segs[..k])), FieldText(segs[k].field),
      After(Texts(segs[k + 1..])))
  {
    var a, b, field := Texts(segs[..k]), Texts(segs[k + 1..]), FieldText(segs[k].field);
    assert Texts(segs) == a + [SegText(segs[k])] + b;
    hide Texts, FieldText, Before, After, Join;
    JoinAround(a, SegText(segs[k]), b);
    BeforeQuiet(segs[..k]);
    FieldBare(segs[k].field);
    hide *;
    Cut(Join(Texts(segs), "/"), Before(a), field, After(b));
  }

  lemma {:induction false} SegsFitOne(segs: seq<Seg>, k: nat, parts: seq<string>)
    requires OneId(segs, k)
    ensures SegsFit(true, segs, parts) <==>
              k < |parts| && parts == Texts(segs[..k]) + [parts[k]] + Texts(segs[k + 1..])
              && ValidId(true, FieldText(segs[k].field), parts[k])
  {
    hide Text, FieldText, ValidId;
    var a, b := Texts(segs[..k]), Texts(segs[k + 1..]);
    if SegsFit(true, segs, parts) {
      forall i | 0 <= i < |parts| ensures parts[i] == (a + [parts[k]] + b)[i] {
        assert SegFits(true, segs[i], parts[i]);
      }
      assert SegFits(true, segs[k], parts[k]);
    }
    if k < |parts| && parts == a + [parts[k]] + b && ValidId(true, FieldText(segs[k].field), parts[k]) {
      forall i | 0 <= i < |segs| ensures SegFits(true, segs[i], parts[i]) {
        assert parts[i] == (a + [parts[k]] + b)[i];
      }
    }
  }

  /** Where the first id of a pattern stands. */
  function FirstParam(segs: seq<Seg>): (k: Option<nat>)
    ensures k.Some? ==> k.value < |segs| && segs[k.value].Param?
                        && forall i :: 0 <= i < k.value ==> segs[i].Lit?
    ensures k.None? ==> forall i :: 0 <= i < |segs| ==> segs[i].Lit?
  {
    if segs == [] then None
    else if segs[0].Param? then Some(0)
    else
      var k := FirstParam(segs[1..]);
      if k.Some? then Some(k.value + 1) else None
  }

  /** What the code returns for the operation it settles on. */
  datatype Hit = Hit(op: Op, field: string, id: string)

  function ValueOf(values: Values, field: string): string {
    if field in values then values[field] else ""
  }

  function HitOf(op: Op, path: string): Hit
    requires |PolicyOf(op).segs| == |Split(path)|
  {
    var segs := PolicyOf(op).segs;
    match FirstParam(segs)
    case None => Hit(op, "", "")
    case Some(k) =>
      var field := FieldText(segs[k].field);
      Hit(op, field, ValueOf(FieldValues(segs, Split(path)), field))
  }

  lemma {:induction false} OneFieldValue(segs: seq<Seg>, k: nat, parts: seq<string>)
    requires OneId(segs, k) && |segs| == |parts|
    ensures ValueOf(FieldValues(segs, parts), FieldText(segs[k].field)) == parts[k]
  {
    hide FieldText;
    var last := |segs| - 1;
    if k < last {
      OneFieldValue(segs[..last], k, parts[..last]);
    }
  }

  predicate AtMostOneId(segs: seq<Seg>) {
    forall i, j :: 0 <= i < j < |segs| ==> segs[i].Lit? || segs[j].Lit?
  }

  lemma {:induction false} PlatformSingle(op: PlatformOp)
    ensures AtMostOneId(PlatformPolicy(op).segs)
  {
  }

  lemma {:induction false} SegsNotEmpty(op: Op)
    ensures PolicyOf(op).segs != []
  {
    OpOfPolicy(op);
    hide PolicyOf;
  }

  lemma {:induction false} PatternSplit(op: Op)
    ensures Pattern(op) == Join(Texts(PolicyOf(op).segs), "/") && Split(Pattern(op)) == Texts(PolicyOf(op).segs)
  {
    SegsNotEmpty(op);
    NoSlashes(PolicyOf(op).segs);
    hide PolicyOf, Texts;
    SplitJoin(Texts(PolicyOf(op).segs));
  }

  lemma {:induction false} LiteralFit(segs: seq<Seg>, parts: seq<string>)
    requires forall i :: 0 <= i < |segs| ==> segs[i].Lit?
    ensures SegsFit(true, segs, parts) <==> parts == Texts(segs)
  {
    hide Text;
    if SegsFit(true, segs, parts) {
      forall i | 0 <= i < |segs| ensures parts[i] == Texts(segs)[i] {
        assert SegFits(true, segs[i], parts[i]);
      }
    }
  }

  /** The prefix-and-suffix matcher agrees with matching segment by segment. */
  lemma {:induction false} PlatformMatchIsFit(p: PlatformOp, path: string)
    ensures var op := OfPlatform(p);
            var start := IndexByte(Pattern(op), '{');
            start.Some? ==> IndexByte(Pattern(op), '}').Some? && start.value < IndexByte(Pattern(op), '}').value
    ensures var op := OfPlatform(p);
            PlatformMatch(Pattern(op), path) ==
              if SegsFit(true, PolicyOf(op).segs, Split(path))
              then Some(Found(HitOf(op, path).field, HitOf(op, path).id)) else None
  {
    var op := OfPlatform(p);
    var segs := PolicyOf(op).segs;
    SegsNotEmpty(op);
    PatternSplit(op);
    PlatformSingle(p);
    assert AtMostOneId(segs);
    JoinSplit(path);
    hide PolicyOf, PlatformPolicy, Texts, Join, Split, ValidId, FieldText;
    match FirstParam(segs)
    case None =>
      LiteralTexts(segs);
      JoinQuiet(Texts(segs));
      NoIndex(Pattern(op), '{');
      LiteralFit(segs, Split(path));
      assert Pattern(op) == path <==> Split(path) == Texts(segs);
    case Some(k) =>
      SinglePlatformMatch(op, k, path);
  }

  lemma {:induction false} FitMatches(segs: seq<Seg>, k: nat, path: string)
    requires OneId(segs, k) && SegsFit(true, segs, Split(path))
    ensures |segs| == |Split(path)|
      && Between(Before(Texts(segs[..k])), FieldText(segs[k].field), After(Texts(segs[k + 1..])), path) ==
              Some(Found(FieldText(segs[k].field), Split(path)[k]))
  {
    var a, b, parts := Texts(segs[..k]), Texts(segs[k + 1..]), Split(path);
    SegsFitOne(segs, k, parts);
    JoinSplit(path);
    hide Texts, ValidId, FieldText, OneId, Before, After, Join, Split;
    JoinAround(a, parts[k], b);
    BetweenIs(Before(a), FieldText(segs[k].field), After(b), path, parts[k]);
  }

  lemma {:induction false} MatchFits(segs: seq<Seg>, k: nat, path: string, id: string)
    requires OneId(segs, k)
    requires Between(Before(Texts(segs[..k])), FieldText(segs[k].field), After(Texts(segs[k + 1..])), path) ==
              Some(Found(FieldText(segs[k].field), id))
    ensures SegsFit(true, segs, Split(path)) && Split(path)[k] == id
  {
    assert k < |segs| && segs[k].Param?;
    hide *;
    var a, b := Texts(segs[..k]), Texts(segs[k + 1..]);
    var parts := a + [id] + b;
    BetweenIs(Before(a), FieldText(segs[k].field), After(b), path, id);
    IdIsNoWord(true, FieldText(segs[k].field), id);
    PartsHaveNoSlash(segs, k, id);
    JoinAround(a, id, b);
    SplitJoin(parts);
    SegsFitOne(segs, k, parts);
  }

  lemma {:induction false} PartsHaveNoSlash(segs: seq<Seg>, k: nat, id: string)
    requires k < |segs| && '/' !in id
    ensures var parts := Texts(segs[..k]) + [id] + Texts(segs[k + 1..]);
      k < |parts| && parts[k] == id && forall i :: 0 <= i < |parts| ==> '/' !in parts[i]
  {
    NoSlashes(segs[..k]);
    NoSlashes(segs[k + 1..]);
    hide Texts;
  }

  lemma {:induction false} SinglePlatformMatch(op: Op, k: nat, path: string)
    requires OneId(PolicyOf(op).segs, k) && FirstParam(PolicyOf(op).segs) == Some(k)
    requires PolicyOf(op).segs != [] && Pattern(op) == Join(Texts(PolicyOf(op).segs), "/")
    ensures var start := IndexByte(Pattern(op), '{');
            start.Some? && IndexByte(Pattern(op), '}').Some? && start.value < IndexByte(Pattern(op), '}').value
    ensures PlatformMatch(Pattern(op), path) ==
              if SegsFit(true, PolicyOf(op).segs, Split(path))
              then Some(Found(HitOf(op, path).field, HitOf(op, path).id)) else None
  {
    hide *;
    var segs := PolicyOf(op).segs;
    AtBraces(segs, k, path);
    if SegsFit(true, segs, Split(path)) {
      FitMatches(segs, k, path);
      HitOne(op, k, path);
    } else if PlatformMatch(Pattern(op), path).Some? {
      BetweenField(Before(Texts(segs[..k])), FieldText(segs[k].field), After(Texts(segs[k + 1..])), path);
      MatchFits(segs, k, path, PlatformMatch(Pattern(op), path).value.id);
    }
  }

  lemma {:induction false} AtBraces(segs: seq<Seg>, k: nat, path: string)
    requires OneId(segs, k)
    ensures var pattern := Join(Texts(segs), "/");
            var start := IndexByte(pattern, '{');
            && start.Some? && IndexByte(pattern, '}').Some? && start.value < IndexByte(pattern, '}').value
            && PlatformMatch(pattern, path) ==
                 Between(Before(Texts(segs[..k])), FieldText(segs[k].field), After(Texts(segs[k + 1..])), path)
  {
    assert k < |segs| && segs[k].Param? && |Texts(segs)| == |segs|;
    hide *;
    var pattern := Join(Texts(segs), "/");
    CutPattern(segs, k);
    MatchCut(pattern, Before(Texts(segs[..k])), FieldText(segs[k].field), After(Texts(segs[k + 1..])), path);
  }

  lemma {:induction false} MatchCut(pattern: string, before: string, field: string, after: string, path: string)
    requires IsCut(pattern, before, field, after)
    ensures var start := IndexByte(pattern, '{');
            && start.Some? && IndexByte(pattern, '}').Some? && start.value < IndexByte(pattern, '}').value
            && PlatformMatch(pattern, path) == Between(before, field, after, path)
  {
    hide Between, IndexByte;
  }

  lemma {:induction false} HitOne(op: Op, k: nat, path: string)
    requires OneId(PolicyOf(op).segs, k) && FirstParam(PolicyOf(op).segs) == Some(k)
    requires |PolicyOf(op).segs| == |Split(path)|
    ensures HitOf(op, path) == Hit(op, FieldText(PolicyOf(op).segs[k].field), Split(path)[k])
  {
    hide PolicyOf, FieldText, Split, FieldValues;
    OneFieldValue(PolicyOf(op).segs, k, Split(path));
  }

  lemma {:induction false} BetweenField(prefix: string, field: string, suffix: string, path: string)
    ensures var m := Between(prefix, field, suffix, path);
            m.Some? ==> m.value.field == field
  {
  }

  // ---------- The dispatch ----------

  /** What the tables say about a request, with no order in it. */
  ghost function RouteOf(verb: string, path: string): Option<Hit> {
    if op :| Handles(op, verb, path) then Some(HitOf(op, path)) else None
  }

  lemma {:induction false} RouteIs(op: Op, verb: string, path: string)
    requires Handles(op, verb, path)
    ensures RouteOf(verb, path) == Some(HitOf(op, path))
  {
    hide PolicyOf, HitOf, SegFits, Split;
    var other :| Handles(other, verb, path) && RouteOf(verb, path) == Some(HitOf(other, path));
    AtMostOneHandles(op, other, verb, path);
  }

  /** The field is that of the pattern's first id; the id is what stands in the path for that field, at
      the last place if the pattern should repeat it. */
  ghost predicate Carries(hit: Hit, path: string) {
    var segs, parts := PolicyOf(hit.op).segs, Split(path);
    && |segs| == |parts|
    && if forall i :: 0 <= i < |segs| ==> segs[i].Lit? then hit.field == "" && hit.id == ""
       else exists k: nat, j: nat ::
              FirstId(segs, k, hit.field) && LastId(segs, j, hit.field) && hit.id == parts[j]
  }

  predicate FirstId(segs: seq<Seg>, k: nat, field: string) {
    && k < |segs| && segs[k].Param? && FieldText(segs[k].field) == field
    && forall i :: 0 <= i < k ==> segs[i].Lit?
  }

  predicate LastId(segs: seq<Seg>, j: nat, field: string) {
    && j < |segs| && segs[j].Param? && FieldText(segs[j].field) == field
    && forall i :: j < i < |segs| && segs[i].Param? ==> FieldText(segs[i].field) != field
  }

  lemma {:induction false} LastValue(segs: seq<Seg>, parts: seq<string>, k: nat, field: string) returns (j: nat)
    requires |segs| == |parts| && k < |segs| && segs[k].Param? && FieldText(segs[k].field) == field
    ensures LastId(segs, j, field) && ValueOf(FieldValues(segs, parts), field) == parts[j]
  {
    hide FieldText, LastId;
    var last := |segs| - 1;
    if segs[last].Param? && FieldText(segs[last].field) == field {
      j := last;
      EndIsLast(segs, field);
    } else {
      j := LastValue(segs[..last], parts[..last], k, field);
      StillLast(segs, j, field);
      assert j < last;
    }
  }

  lemma {:induction false} EndIsLast(segs: seq<Seg>, field: string)
    requires segs != [] && segs[|segs| - 1].Param? && FieldText(segs[|segs| - 1].field) == field
    ensures LastId(segs, |segs| - 1, field)
  {
    hide FieldText;
  }

  lemma {:induction false} StillLast(segs: seq<Seg>, j: nat, field: string)
    requires segs != [] && LastId(segs[..|segs| - 1], j, field)
    requires segs[|segs| - 1].Param? ==> FieldText(segs[|segs| - 1].field) != field
    ensures LastId(segs, j, field) && j < |segs| - 1
  {
    hide FieldText;
    var start := segs[..|segs| - 1];
    assert forall i :: 0 <= i < |start| ==> start[i] == segs[i];
  }

  lemma {:induction false} HitCarries(op: Op, path: string)
    requires |PolicyOf(op).segs| == |Split(path)|
    ensures Carries(HitOf(op, path), path)
  {
    var segs := PolicyOf(op).segs;
    hide FieldText, PolicyOf, Split, FieldValues, ValueOf;
    var k := FirstParam(segs);
    if k.Some? {
      var j := LastValue(segs, Split(path), k.value, FieldText(segs[k.value].field));
      assert FirstId(segs, k.value, HitOf(op, path).field) && LastId(segs, j, HitOf(op, path).field);
    }
  }

  /** There is a result exactly when an operation is registered, and it is that operation with its field
      and id. */
  lemma {:induction false} RouteMeans(verb: string, path: string)
    ensures RouteOf(verb, path).Some? <==> exists op :: Handles(op, verb, path)
    ensures var r := RouteOf(verb, path);
      r.Some? ==> Handles(r.value.op, verb, path) && Carries(r.value, path)
  {
    hide Carries, FieldText, PolicyOf, Split, SegFits;
    if RouteOf(verb, path).Some? {
      var op :| Handles(op, verb, path) && RouteOf(verb, path) == Some(HitOf(op, path));
      FitLength(op, path);
      HitCarries(op, path);
      HitParts(op, path);
    }
  }

  /** platformNetworkHTTPRoute, for any order in which its map is gone through. */
  method PlatformNetworkHTTPRoute(verb: string, path: string, order: seq<PlatformOp>) returns (r: Option<Hit>)
    requires forall p: PlatformOp :: p in order
    ensures r.None? ==> forall p: PlatformOp :: !Handles(OfPlatform(p), verb, path)
    ensures r.Some? ==> r == RouteOf(verb, path)
    ensures r.Some? ==> r.value.op.OfPlatform? && Handles(r.value.op, verb, path) && Carries(r.value, path)
  {
    hide PolicyOf, HitOf, RouteOf, Pattern, PlatformMatch, SegsFit, Carries;
    RouteMeans(verb, path);
    for i := 0 to |order|
      invariant forall k :: 0 <= k < i ==> !Handles(OfPlatform(order[k]), verb, path)
    {
      var op := OfPlatform(order[i]);
      if VerbText(PolicyOf(op).verb) == verb {
        PlatformMatchIsFit(order[i], path);
        var m := MatchPlatform(Pattern(op), path);
        if m.Some? {
          RouteIs(op, verb, path);
          FitLength(op, path);
          HitParts(op, path);
          return Some(Hit(op, m.value.field, m.value.id));
        }
      }
    }
    r := None;
    forall p: PlatformOp ensures !Handles(OfPlatform(p), verb, path) {
      assert p in order;
    }
  }

  lemma {:induction false} FitLength(op: Op, path: string)
    requires SegsFit(op.OfPlatform?, PolicyOf(op).segs, Split(path))
    ensures |PolicyOf(op).segs| == |Split(path)|
  {
    hide PolicyOf, SegFits;
  }

  lemma {:induction false} HitParts(op: Op, path: string)
    requires |PolicyOf(op).segs| == |Split(path)|
    ensures HitOf(op, path) == Hit(op, HitOf(op, path).field, HitOf(op, path).id)
  {
  }

  /** The loop that finds the first id of a pattern and its value. */
  method FirstValue(pattern: string, values: Values) returns (field: string, id: string)
    ensures (field, id) == FirstValueOf(Split(pattern), values)
  {
    field, id := "", "";
    var parts := Split(pattern);
    for i := 0 to |parts|
      invariant FirstValueOf(parts, values) == FirstValueOf(parts[i..], values)
    {
      assert parts[i..][1..] == parts[i + 1..];
      if Opens(parts[i]) {
        field := TrimBraces(parts[i]);
        id := ValueOf(values, field);
        return;
      }
    }
  }

  function FirstValueOf(parts: seq<string>, values: Values): (string, string) {
    if parts == [] then ("", "")
    else if Opens(parts[0]) then (TrimBraces(parts[0]), ValueOf(values, TrimBraces(parts[0])))
    else FirstValueOf(parts[1..], values)
  }

  lemma {:induction false} FirstValueIs(segs: seq<Seg>, values: Values)
    ensures FirstValueOf(Texts(segs), values) ==
              match FirstParam(segs)
              case None => ("", "")
              case Some(k) => (FieldText(segs[k].field), ValueOf(values, FieldText(segs[k].field)))
  {
    hide Text, FieldText, ValueOf, TrimBraces;
    if segs != [] {
      assert Texts(segs)[1..] == Texts(segs[1..]);
      FirstValueIs(segs[1..], values);
      SegTextNoSlash(segs[0]);
      if segs[0].Param? {
        FieldBare(segs[0].field);
        TrimParam(FieldText(segs[0].field));
      }
    }
  }

  /** One policy of NetworkOperations or OwnerNetworkInterfaceOperations, when its method is the request's. */
  method MatchNetwork(op: Op, path: string) returns (r: Option<Hit>)
    requires !op.OfPlatform?
    ensures r == if SegsFit(false, PolicyOf(op).segs, Split(path)) then Some(HitOf(op, path)) else None
  {
    PatternSplit(op);
    hide PolicyOf, Texts, Pattern, Split, SegsFit, ValuesOf, FirstValueOf, FieldValues;
    ghost var segs := PolicyOf(op).segs;
    assert |Texts(segs)| == |segs| by {
      NoSlashes(segs);
    }
    var values := NetworkRouteValues(Pattern(op), path);
    if |segs| == |Split(path)| {
      ValuesAreFields(segs, Split(path));
    } else {
      LengthsFit(segs, Split(path));
    }
    if values == None {
      return None;
    }
    var field, id := FirstValue(Pattern(op), values.value);
    FirstValueIs(segs, values.value);
    r := Some(Hit(op, field, id));
  }

  lemma {:induction false} LengthsFit(segs: seq<Seg>, parts: seq<string>)
    ensures SegsFit(false, segs, parts) ==> |segs| == |parts|
  {
  }

  /** networkHTTPRoute: the operation, the field and the id are the same whatever the orders in which
      the three maps are gone through, and there is none exactly when no operation is registered. */
  method NetworkHTTPRoute(verb: string, path: string, platformOrder: seq<PlatformOp>, networkOrder: seq<NetworkOp>,
                          ownerOrder: seq<OwnerOp>)
    returns (r: Option<Hit>)
    requires (forall p: PlatformOp :: p in platformOrder) && (forall n: NetworkOp :: n in networkOrder)
    requires forall o: OwnerOp :: o in ownerOrder
    ensures r == RouteOf(verb, path)
    ensures r.Some? <==> exists op :: Handles(op, verb, path)
    ensures r.Some? ==> Handles(r.value.op, verb, path) && Carries(r.value, path)
  {
    hide PolicyOf, HitOf, RouteOf, SegsFit, VerbText, Carries;
    RouteMeans(verb, path);
    r := PlatformNetworkHTTPRoute(verb, path, platformOrder);
    if r.Some? {
      return;
    }
    for i := 0 to |networkOrder|
      invariant forall k :: 0 <= k < i ==> !Handles(OfNetwork(networkOrder[k]), verb, path)
    {
      var op := OfNetwork(networkOrder[i]);
      if VerbText(PolicyOf(op).verb) == verb {
        r := MatchNetwork(op, path);
        if r.Some? {
          RouteIs(op, verb, path);
          return;
        }
      }
    }
    for i := 0 to |ownerOrder|
      invariant forall k :: 0 <= k < i ==> !Handles(OfOwner(ownerOrder[k]), verb, path)
    {
      var op := OfOwner(ownerOrder[i]);
      if VerbText(PolicyOf(op).verb) == verb {
        r := MatchNetwork(op, path);
        if r.Some? {
          RouteIs(op, verb, path);
          return;
        }
      }
    }
    r := None;
    NoRoute(verb, path, platformOrder, networkOrder, ownerOrder);
  }

  lemma {:induction false} NoRoute(verb: string, path: string, platformOrder: seq<PlatformOp>,
                                   networkOrder: seq<NetworkOp>, ownerOrder: seq<OwnerOp>)
    requires (forall n: NetworkOp :: n in networkOrder) && (forall o: OwnerOp :: o in ownerOrder)
    requires forall p: PlatformOp :: !Handles(OfPlatform(p), verb, path)
    requires forall k :: 0 <= k < |networkOrder| ==> !Handles(OfNetwork(networkOrder[k]), verb, path)
    requires forall k :: 0 <= k < |ownerOrder| ==> !Handles(OfOwner(ownerOrder[k]), verb, path)
    ensures RouteOf(verb, path) == None
  {
    hide Handles, HitOf;
    forall op ensures !Handles(op, verb, path) {
      match op
      case OfNetwork(n) =>
        assert n in networkOrder;
      case OfOwner(o) =>
        assert o in ownerOrder;
      case OfPlatform(p) =>
    }
  }
}
