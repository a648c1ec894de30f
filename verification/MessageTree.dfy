/** Filter and Prune as the code does them: they clear fields and map entries of a tree of message
    objects in place (pkg/localdeps/go-utils/fieldmaskutil/nested_mask.go:52-141). */
module MessageTree {
  import opened Basics
  import opened NestedMask
  import opened MaskedMessages

  datatype Held = Number(value: int) | Sub(msg: Message)

  /** Where a mask goes on below a list, the list holds messages; on a list of scalars the code panics. */
  predicate NoScalarList(mask: Mask, msg: Msg)
    decreases mask, 0
  {
    forall f, s :: f in mask.m && mask.m[f] != ALL && f in msg.fields && s in msg.fields[f]
      ==> NoScalarListItem(mask.m[f], s, msg.fields[f][s])
  }

  predicate NoScalarListItem(m: Mask, slot: Slot, item: Item)
    decreases m, 1
  {
    match slot
    case Key(k) => k in m.m && m.m[k] != ALL && item.Child? ==> NoScalarList(m.m[k], item.msg)
    case _ => (slot.At? ==> item.Child?) && (item.Child? ==> NoScalarList(m, item.msg))
  }

  function Lookup<K, V>(m: map<K, V>, k: K): Option<V> {
    if k in m then Some(m[k]) else None
  }

  lemma {:induction false} SameLookups<K, V>(a: map<K, V>, b: map<K, V>)
    requires forall k :: Lookup(a, k) == Lookup(b, k)
    ensures a == b
  {
    assert forall k :: k in a ==> Lookup(a, k) == Lookup(b, k) && k in b;
    assert forall k :: k in b ==> Lookup(a, k) == Lookup(b, k) && k in a;
  }

  /** m with the value of k set, or taken out. */
  function With<K, V>(m: map<K, V>, k: K, v: Option<V>): map<K, V> {
    if v.Some? then m[k := v.value] else m - {k}
  }

  /** A loop that turns was into want key by key has the keys in todo before it. */
  ghost predicate Halfway<K(!new), V>(m: map<K, V>, was: map<K, V>, want: map<K, V>, todo: set<K>) {
    forall j :: Lookup(m, j) == Lookup(if j in todo then was else want, j)
  }

  lemma {:induction false} NoneYet<K(!new), V>(was: map<K, V>, want: map<K, V>, todo: set<K>)
    requires todo == was.Keys && want.Keys <= was.Keys
    ensures Halfway(was, was, want, todo)
  {
  }

  lemma {:induction false} AllDone<K(!new), V>(m: map<K, V>, was: map<K, V>, want: map<K, V>)
    requires Halfway(m, was, want, {})
    ensures m == want
  {
    SameLookups(m, want);
  }

  lemma {:induction false} OneMore<K(!new), V>(m: map<K, V>, was: map<K, V>, want: map<K, V>, todo: set<K>, k: K)
    requires k in todo && todo <= was.Keys && Halfway(m, was, want, todo)
    ensures k in m && m[k] == was[k]
    ensures Halfway(With(m, k, Lookup(want, k)), was, want, todo - {k})
  {
    assert Lookup(m, k) == Lookup(was, k);
  }

  lemma {:induction false} FilterSlotsAt(m: Mask, slots: map<Slot, Item>, s: Slot)
    requires s in slots
    ensures Lookup(FilterSlots(m, slots), s) == FilterItem(m, s, slots[s])
  {
  }

  lemma {:induction false} FilterSlotsKeys(m: Mask, slots: map<Slot, Item>)
    ensures FilterSlots(m, slots).Keys <= slots.Keys
  {
  }

  lemma {:induction false} PruneSlotsAt(m: Mask, slots: map<Slot, Item>, s: Slot)
    requires s in slots
    ensures Lookup(PruneSlots(m, slots), s) == PruneItem(m, s, slots[s])
  {
  }

  lemma {:induction false} PruneSlotsKeys(m: Mask, slots: map<Slot, Item>)
    ensures PruneSlots(m, slots).Keys <= slots.Keys
  {
  }

  function FieldFiltered(mask: Mask, f: string, slots: map<Slot, Item>): Option<map<Slot, Item>> {
    if f !in mask.m then None
    else if mask.m[f] == ALL then Some(slots)
    else Some(FilterSlots(mask.m[f], slots))
  }

  function FieldPruned(mask: Mask, f: string, slots: map<Slot, Item>): Option<map<Slot, Item>> {
    if f !in mask.m then Some(slots)
    else if mask.m[f] == ALL then None
    else Some(PruneSlots(mask.m[f], slots))
  }

  lemma {:induction false} FilterValueAt(mask: Mask, msg: Msg, f: string)
    requires mask != ALL && f in msg.fields
    ensures Lookup(FilterValue(mask, msg).fields, f) == FieldFiltered(mask, f, msg.fields[f])
  {
  }

  lemma {:induction false} FilterValueKeys(mask: Mask, msg: Msg)
    ensures FilterValue(mask, msg).fields.Keys <= msg.fields.Keys
  {
  }

  lemma {:induction false} PruneValueAt(mask: Mask, msg: Msg, f: string)
    requires mask != ALL && f in msg.fields
    ensures Lookup(PruneValue(mask, msg).fields, f) == FieldPruned(mask, f, msg.fields[f])
  {
  }

  lemma {:induction false} PruneValueKeys(mask: Mask, msg: Msg)
    ensures PruneValue(mask, msg).fields.Keys <= msg.fields.Keys
  {
  }

  lemma {:induction false} FilterValueAll(msg: Msg)
    ensures FilterValue(ALL, msg) == msg
  {
  }

  lemma {:induction false} PruneValueAll(msg: Msg)
    ensures PruneValue(ALL, msg) == msg
  {
  }

  ghost predicate FieldListable(mask: Mask, f: string, slots: map<Slot, Item>) {
    f in mask.m && mask.m[f] != ALL ==>
      forall s :: s in slots ==> NoScalarListItem(mask.m[f], s, slots[s])
  }

  lemma {:induction false} ListableAt(mask: Mask, msg: Msg, f: string)
    requires NoScalarList(mask, msg) && f in msg.fields
    ensures FieldListable(mask, f, msg.fields[f])
  {
  }

  predicate HoldsSub(contents: map<string, map<Slot, Held>>, f: string, s: Slot) {
    f in contents && s in contents[f] && contents[f][s].Sub?
  }

  class Message {
    var fields: map<string, map<Slot, Held>>
    /** This message and every message below it. */
    ghost const Repr: set<Message>

    /** A message over sub-messages that share nothing. */
    constructor (contents: map<string, map<Slot, Held>>)
      requires forall f, s :: HoldsSub(contents, f, s) ==> contents[f][s].msg.Valid()
      requires forall f, s, g, t ::
                 HoldsSub(contents, f, s) && HoldsSub(contents, g, t) && (f != g || s != t)
                 ==> contents[f][s].msg.Repr !! contents[g][t].msg.Repr
      ensures Valid() && fields == contents
      ensures fresh(this) && this in Repr
      ensures forall o :: o in Repr && o != this ==>
                exists f, s :: HoldsSub(contents, f, s) && o in contents[f][s].msg.Repr
    {
      fields := contents;
      Repr := {this} + set f, s, o | f in contents && s in contents[f] && HoldsSub(contents, f, s)
                                     && o in contents[f][s].msg.Repr :: o;
      new;
      assert forall f, s :: HasKid(f, s) <==> HoldsSub(contents, f, s);
    }

    ghost predicate HasKid(f: string, s: Slot)
      reads this
    {
      HoldsSub(fields, f, s)
    }

    ghost function Kid(f: string, s: Slot): Message
      reads this
      requires HasKid(f, s)
    {
      fields[f][s].msg
    }

    /** The messages form a tree. */
    ghost predicate Valid()
      reads this, Repr
      ensures Valid() ==> this in Repr
      decreases Repr
    {
      && this in Repr
      && (forall f, s :: HasKid(f, s) ==>
            && Kid(f, s) in Repr && Kid(f, s).Repr <= Repr && this !in Kid(f, s).Repr
            && Kid(f, s).Valid())
      && (forall f, s, g, t :: HasKid(f, s) && HasKid(g, t) && (f != g || s != t)
            ==> Kid(f, s).Repr !! Kid(g, t).Repr)
    }

    ghost function ItemValue(f: string, s: Slot): (r: Item)
      reads this, Repr
      requires Valid() && f in fields && s in fields[f]
      ensures HasKid(f, s) <==> r.Child?
      ensures HasKid(f, s) ==> Kid(f, s).Valid() && r.msg == Kid(f, s).Value()
      decreases Repr, 0
    {
      if HasKid(f, s) then Child(Kid(f, s).Value()) else Leaf(fields[f][s].value)
    }

    ghost function Slots(f: string): (r: map<Slot, Item>)
      reads this, Repr
      requires Valid() && f in fields
      ensures r.Keys == fields[f].Keys
      ensures forall s :: s in r ==> r[s] == ItemValue(f, s)
      decreases Repr, 1
    {
      map s | s in fields[f] :: ItemValue(f, s)
    }

    ghost function Value(): (r: Msg)
      reads this, Repr
      requires Valid()
      ensures r.fields.Keys == fields.Keys
      ensures forall f :: f in r.fields ==> r.fields[f] == Slots(f)
      decreases Repr, 2
    {
      Msg(map f | f in fields :: Slots(f))
    }

    method ClearField(f: string)
      requires Valid()
      modifies this
      ensures Valid() && Value().fields == old(Value().fields) - {f}
    {
      fields := fields - {f};
      forall g, t | HasKid(g, t)
        ensures old(HasKid(g, t)) && Kid(g, t) == old(Kid(g, t))
        ensures Kid(g, t).Valid() && Kid(g, t).Value() == old(Kid(g, t).Value())
      {
        assert old(HasKid(g, t));
      }
      forall g, t | g in fields && t in fields[g] ensures ItemValue(g, t) == old(ItemValue(g, t)) {
        assert HasKid(g, t) <==> old(HasKid(g, t));
      }
      forall g | g in fields ensures Slots(g) == old(Slots(g)) {
      }
    }

    method ClearSlot(f: string, s: Slot)
      requires Valid() && f in fields && s in fields[f]
      modifies this
      ensures Valid()
      ensures Value().fields == old(Value().fields)[f := old(Value().fields[f]) - {s}]
    {
      fields := fields[f := fields[f] - {s}];
      forall g, t | HasKid(g, t)
        ensures old(HasKid(g, t)) && Kid(g, t) == old(Kid(g, t))
        ensures Kid(g, t).Valid() && Kid(g, t).Value() == old(Kid(g, t).Value())
      {
        assert old(HasKid(g, t));
      }
      forall g, t | g in fields && t in fields[g] ensures ItemValue(g, t) == old(ItemValue(g, t)) {
        assert HasKid(g, t) <==> old(HasKid(g, t));
      }
      forall g | g in fields
        ensures Slots(g) == if g == f then old(Slots(f)) - {s} else old(Slots(g)) {
      }
    }

    method FilterKid(f: string, s: Slot, m: Mask)
      requires Valid() && HasKid(f, s) && NoScalarList(m, Kid(f, s).Value())
      modifies Repr
      ensures Valid()
      ensures Value().fields == old(Value().fields)
              [f := old(Value().fields[f])[s := Child(FilterValue(m, old(Kid(f, s).Value())))]]
      decreases m, 2
    {
      var c := fields[f][s].msg;
      c.Filter(m);
      forall g, t | HasKid(g, t)
        ensures old(HasKid(g, t)) && Kid(g, t) == old(Kid(g, t)) && Kid(g, t).Valid()
        ensures g != f || t != s ==> Kid(g, t).Value() == old(Kid(g, t).Value())
      {
        assert old(HasKid(g, t));
      }
      forall g, t | g in fields && t in fields[g] && (g != f || t != s)
        ensures ItemValue(g, t) == old(ItemValue(g, t)) {
        assert HasKid(g, t) <==> old(HasKid(g, t));
      }
      assert ItemValue(f, s) == Child(c.Value());
      forall g | g in fields
        ensures Slots(g) == if g == f then old(Slots(f))[s := Child(c.Value())] else old(Slots(g)) {
      }
    }

    method FilterSlot(f: string, s: Slot, m: Mask)
      requires Valid() && f in Value().fields && s in Value().fields[f] && m != ALL
      requires NoScalarListItem(m, s, Value().fields[f][s])
      modifies Repr
      ensures Valid()
      ensures Value().fields == old(Value().fields)
              [f := With(old(Value().fields[f]), s, FilterItem(m, s, old(Value().fields[f][s])))]
      decreases m, 3
    {
      hide Valid, Value, Slots, ItemValue, FilterValue;
      assert Value().fields[f][s] == ItemValue(f, s);
      ghost var was := Value().fields;
      assert was == was[f := was[f]] && was[f] == was[f][s := was[f][s]];
      match s {
        case Key(k) =>
          if k !in m.m {
            ClearSlot(f, s);
          } else if fields[f][s].Sub? && m.m[k] != ALL {
            FilterKid(f, s, m.m[k]);
          }
        case At(_) =>
          FilterKid(f, s, m);
        case Single =>
          if fields[f][s].Sub? {
            FilterKid(f, s, m);
          }
      }
    }

    method FilterSlots(f: string, m: Mask)
      requires Valid() && f in Value().fields && m != ALL
      requires forall s :: s in Value().fields[f] ==> NoScalarListItem(m, s, Value().fields[f][s])
      modifies Repr
      ensures Valid()
      ensures Value().fields == old(Value().fields)[f := MaskedMessages.FilterSlots(m, old(Value().fields[f]))]
      decreases m, 4
    {
      hide *;
      ghost var was := Value().fields;
      ghost var want := MaskedMessages.FilterSlots(m, was[f]);
      var todo := fields[f].Keys;
      FilterSlotsKeys(m, was[f]);
      NoneYet(was[f], want, todo);
      while todo != {}
        invariant Valid() && f in Value().fields && todo <= was[f].Keys
        invariant Value().fields == was[f := Value().fields[f]]
        invariant Halfway(Value().fields[f], was[f], want, todo)
        decreases todo
      {
        var s :| s in todo;
        FilterSlotsAt(m, was[f], s);
        OneMore(Value().fields[f], was[f], want, todo, s);
        FilterSlot(f, s, m);
        todo := todo - {s};
      }
      AllDone(Value().fields[f], was[f], want);
    }

    method FilterField(f: string, mask: Mask)
      requires Valid() && f in Value().fields && mask != ALL && FieldListable(mask, f, Value().fields[f])
      modifies Repr
      ensures Valid()
      ensures Value().fields == With(old(Value().fields), f, FieldFiltered(mask, f, old(Value().fields[f])))
      decreases mask, 0
    {
      hide Valid, Value, Slots, ItemValue, MaskedMessages.FilterSlots;
      if f in mask.m {
        if mask.m[f] != ALL {
          FilterSlots(f, mask.m[f]);
        }
      } else {
        ClearField(f);
      }
    }

    /** Keeps the listed fields. */
    method Filter(mask: Mask)
      requires Valid() && NoScalarList(mask, Value())
      modifies Repr
      ensures Valid()
      ensures Value() == FilterValue(mask, old(Value()))
      decreases mask, 1
    {
      hide *;
      if mask == ALL {
        FilterValueAll(Value());
        return;
      }
      ghost var was := Value();
      ghost var want := FilterValue(mask, was);
      var todo := fields.Keys;
      FilterValueKeys(mask, was);
      NoneYet(was.fields, want.fields, todo);
      while todo != {}
        invariant Valid() && todo <= was.fields.Keys
        invariant Halfway(Value().fields, was.fields, want.fields, todo)
        decreases todo
      {
        var f :| f in todo;
        FilterValueAt(mask, was, f);
        ListableAt(mask, was, f);
        OneMore(Value().fields, was.fields, want.fields, todo, f);
        FilterField(f, mask);
        todo := todo - {f};
      }
      AllDone(Value().fields, was.fields, want.fields);
    }

    method PruneKid(f: string, s: Slot, m: Mask)
      requires Valid() && HasKid(f, s) && NoScalarList(m, Kid(f, s).Value())
      modifies Repr
      ensures Valid()
      ensures Value().fields == old(Value().fields)
              [f := old(Value().fields[f])[s := Child(PruneValue(m, old(Kid(f, s).Value())))]]
      decreases m, 2
    {
      var c := fields[f][s].msg;
      c.Prune(m);
      forall g, t | HasKid(g, t)
        ensures old(HasKid(g, t)) && Kid(g, t) == old(Kid(g, t)) && Kid(g, t).Valid()
        ensures g != f || t != s ==> Kid(g, t).Value() == old(Kid(g, t).Value())
      {
        assert old(HasKid(g, t));
      }
      forall g, t | g in fields && t in fields[g] && (g != f || t != s)
        ensures ItemValue(g, t) == old(ItemValue(g, t)) {
        assert HasKid(g, t) <==> old(HasKid(g, t));
      }
      assert ItemValue(f, s) == Child(c.Value());
      forall g | g in fields
        ensures Slots(g) == if g == f then old(Slots(f))[s := Child(c.Value())] else old(Slots(g)) {
      }
    }

    method PruneSlot(f: string, s: Slot, m: Mask)
      requires Valid() && f in Value().fields && s in Value().fields[f] && m != ALL
      requires NoScalarListItem(m, s, Value().fields[f][s])
      modifies Repr
      ensures Valid()
      ensures Value().fields == old(Value().fields)
              [f := With(old(Value().fields[f]), s, PruneItem(m, s, old(Value().fields[f][s])))]
      decreases m, 3
    {
      hide Valid, Value, Slots, ItemValue, PruneValue;
      assert Value().fields[f][s] == ItemValue(f, s);
      ghost var was := Value().fields;
      assert was == was[f := was[f]] && was[f] == was[f][s := was[f][s]];
      match s {
        case Key(k) =>
          if k in m.m {
            if fields[f][s].Sub? && m.m[k] != ALL {
              PruneKid(f, s, m.m[k]);
            } else {
              ClearSlot(f, s);
            }
          }
        case At(_) =>
          PruneKid(f, s, m);
        case Single =>
          if fields[f][s].Sub? {
            PruneKid(f, s, m);
          }
      }
    }

    method PruneSlots(f: string, m: Mask)
      requires Valid() && f in Value().fields && m != ALL
      requires forall s :: s in Value().fields[f] ==> NoScalarListItem(m, s, Value().fields[f][s])
      modifies Repr
      ensures Valid()
      ensures Value().fields == old(Value().fields)[f := MaskedMessages.PruneSlots(m, old(Value().fields[f]))]
      decreases m, 4
    {
      hide *;
      ghost var was := Value().fields;
      ghost var want := MaskedMessages.PruneSlots(m, was[f]);
      var todo := fields[f].Keys;
      PruneSlotsKeys(m, was[f]);
      NoneYet(was[f], want, todo);
      while todo != {}
        invariant Valid() && f in Value().fields && todo <= was[f].Keys
        invariant Value().fields == was[f := Value().fields[f]]
        invariant Halfway(Value().fields[f], was[f], want, todo)
        decreases todo
      {
        var s :| s in todo;
        PruneSlotsAt(m, was[f], s);
        OneMore(Value().fields[f], was[f], want, todo, s);
        PruneSlot(f, s, m);
        todo := todo - {s};
      }
      AllDone(Value().fields[f], was[f], want);
    }

    method PruneField(f: string, mask: Mask)
      requires Valid() && f in Value().fields && mask != ALL && FieldListable(mask, f, Value().fields[f])
      modifies Repr
      ensures Valid()
      ensures Value().fields == With(old(Value().fields), f, FieldPruned(mask, f, old(Value().fields[f])))
      decreases mask, 0
    {
      hide Valid, Value, Slots, ItemValue, MaskedMessages.PruneSlots;
      if f in mask.m {
        if mask.m[f] == ALL {
          ClearField(f);
        } else {
          PruneSlots(f, mask.m[f]);
        }
      }
    }

    /** Clears the listed fields. */
    method Prune(mask: Mask)
      requires Valid() && NoScalarList(mask, Value())
      modifies Repr
      ensures Valid()
      ensures Value() == PruneValue(mask, old(Value()))
      decreases mask, 1
    {
      hide *;
      if mask == ALL {
        PruneValueAll(Value());
        return;
      }
      ghost var was := Value();
      ghost var want := PruneValue(mask, was);
      var todo := fields.Keys;
      PruneValueKeys(mask, was);
      NoneYet(was.fields, want.fields, todo);
      while todo != {}
        invariant Valid() && todo <= was.fields.Keys
        invariant Halfway(Value().fields, was.fields, want.fields, todo)
        decreases todo
      {
        var f :| f in todo;
        PruneValueAt(mask, was, f);
        ListableAt(mask, was, f);
        OneMore(Value().fields, was.fields, want.fields, todo, f);
        PruneField(f, mask);
        todo := todo - {f};
      }
      AllDone(Value().fields, was.fields, want.fields);
    }
  }
}
