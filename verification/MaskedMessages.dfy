/** What Filter and Prune make of a message: pkg/localdeps/go-utils/fieldmaskutil/nested_mask.go:52-141.
    MessageTree.dfy proves that the code, which clears fields in place, computes these values. */
module MaskedMessages {
  import opened Basics
  import opened NestedMask

  // ---------- Filter and Prune on values ----------

  function FilterItem(m: Mask, slot: Slot, item: Item): Option<Item>
    decreases m, 2
  {
    match slot
    case Key(k) =>
      if k !in m.m then None
      else if item.Child? && m.m[k] != ALL then Some(Child(FilterValue(m.m[k], item.msg)))
      else Some(item)
    case _ =>
      if item.Child? then Some(Child(FilterValue(m, item.msg))) else Some(item)
  }

  function FilterSlots(m: Mask, slots: map<Slot, Item>): map<Slot, Item>
    decreases m, 3
  {
    map s | s in slots && FilterItem(m, s, slots[s]).Some? :: FilterItem(m, s, slots[s]).value
  }

  function FilterValue(mask: Mask, msg: Msg): Msg
    decreases mask, 0
  {
    if mask == ALL then msg
    else Msg(map f | f in msg.fields && f in mask.m ::
               if mask.m[f] == ALL then msg.fields[f] else FilterSlots(mask.m[f], msg.fields[f]))
  }

  function PruneItem(m: Mask, slot: Slot, item: Item): Option<Item>
    decreases m, 2
  {
    match slot
    case Key(k) =>
      if k !in m.m then Some(item)
      else if item.Child? && m.m[k] != ALL then Some(Child(PruneValue(m.m[k], item.msg)))
      else None
    case _ =>
      if item.Child? then Some(Child(PruneValue(m, item.msg))) else Some(item)
  }

  function PruneSlots(m: Mask, slots: map<Slot, Item>): map<Slot, Item>
    decreases m, 3
  {
    map s | s in slots && PruneItem(m, s, slots[s]).Some? :: PruneItem(m, s, slots[s]).value
  }

  function PruneValue(mask: Mask, msg: Msg): Msg
    decreases mask, 0
  {
    if mask == ALL then msg
    else Msg(map f | f in msg.fields && !(f in mask.m && mask.m[f] == ALL) ::
               if f in mask.m then PruneSlots(mask.m[f], msg.fields[f]) else msg.fields[f])
  }

  // ---------- Places in a message ----------

  datatype Step = Step(field: string, slot: Slot)

  type Place = seq<Step>

  datatype Shape = Scalar(value: int) | Message

  function ItemAt(msg: Msg, step: Step): Option<Item> {
    if step.field in msg.fields && step.slot in msg.fields[step.field]
    then Some(msg.fields[step.field][step.slot])
    else None
  }

  /** What is found at a place: a scalar and its value, a message, or nothing. */
  function ShapeAt(msg: Msg, place: Place): Option<Shape>
    requires place != []
    decreases |place|
  {
    match ItemAt(msg, place[0])
    case None => None
    case Some(Leaf(v)) => if |place| == 1 then Some(Scalar(v)) else None
    case Some(Child(c)) => if |place| == 1 then Some(Message) else ShapeAt(c, place[1..])
  }

  function StepSegments(step: Step): Path {
    [step.field] + if step.slot.Key? then [step.slot.key] else []
  }

  /** The path of a place: list positions do not count, map keys do. */
  function Segments(place: Place): Path {
    if place == [] then [] else StepSegments(place[0]) + Segments(place[1..])
  }

  /** Some path of the mask begins the segments. */
  predicate Covered(mask: Mask, segs: Path) {
    segs != [] && segs[0] in mask.m && (mask.m[segs[0]] == ALL || Covered(mask.m[segs[0]], segs[1..]))
  }

  /** Some path of the mask begins the segments, or goes on from them. */
  predicate Touched(mask: Mask, segs: Path) {
    segs == [] || (segs[0] in mask.m && (mask.m[segs[0]] == ALL || Touched(mask.m[segs[0]], segs[1..])))
  }

  predicate Begins(p: Path, segs: Path) {
    p <= segs
  }

  lemma {:induction false} CoveringPath(mask: Mask, segs: Path) returns (p: Path)
    requires Covered(mask, segs)
    ensures HasPath(mask, p) && p <= segs
    decreases |segs|
  {
    var f := segs[0];
    if mask.m[f] == ALL {
      p := [f];
    } else {
      var rest := CoveringPath(mask.m[f], segs[1..]);
      BelowField(mask, f, rest);
      p := [f] + rest;
    }
  }

  lemma {:induction false} PathCovers(mask: Mask, segs: Path, p: Path)
    requires HasPath(mask, p) && p <= segs
    ensures Covered(mask, segs)
    decreases |p|
  {
    if |p| > 1 {
      PathCovers(mask.m[p[0]], segs[1..], p[1..]);
    }
  }

  lemma {:induction false} CoveredByPath(mask: Mask, segs: Path)
    ensures Covered(mask, segs) <==> exists p :: HasPath(mask, p) && Begins(p, segs)
  {
    if Covered(mask, segs) {
      var p := CoveringPath(mask, segs);
      assert HasPath(mask, p) && Begins(p, segs);
    }
    forall p | HasPath(mask, p) && Begins(p, segs) ensures Covered(mask, segs) {
      PathCovers(mask, segs, p);
    }
  }

  lemma {:induction false} TouchingPath(mask: Mask, segs: Path) returns (p: Path)
    requires mask != ALL && Touched(mask, segs)
    ensures HasPath(mask, p) && !Incomparable(p, segs)
    decreases |segs|
  {
    if segs == [] {
      p := SomePath(mask);
    } else if mask.m[segs[0]] == ALL {
      p := [segs[0]];
    } else {
      var rest := TouchingPath(mask.m[segs[0]], segs[1..]);
      BelowField(mask, segs[0], rest);
      p := [segs[0]] + rest;
    }
  }

  lemma {:induction false} PathTouches(mask: Mask, segs: Path, p: Path)
    requires HasPath(mask, p) && !Incomparable(p, segs)
    ensures Touched(mask, segs)
    decreases |p|
  {
    if segs != [] && |p| > 1 {
      PathTouches(mask.m[p[0]], segs[1..], p[1..]);
    }
  }

  lemma {:induction false} TouchedByPath(mask: Mask, segs: Path)
    requires mask != ALL
    ensures Touched(mask, segs) <==> exists p :: HasPath(mask, p) && !Incomparable(p, segs)
  {
    if Touched(mask, segs) {
      var p := TouchingPath(mask, segs);
    }
    forall p | HasPath(mask, p) && !Incomparable(p, segs) ensures Touched(mask, segs) {
      PathTouches(mask, segs, p);
    }
  }

  /** The mask goes on only below messages: a nested part never meets a scalar. */
  predicate Fits(mask: Mask, msg: Msg)
    decreases mask, 0
  {
    forall f, s :: f in mask.m && mask.m[f] != ALL && f in msg.fields && s in msg.fields[f]
      ==> FitsItem(mask.m[f], s, msg.fields[f][s])
  }

  predicate FitsItem(m: Mask, slot: Slot, item: Item)
    decreases m, 1
  {
    match slot
    case Key(k) => k in m.m && m.m[k] != ALL ==> item.Child? && Fits(m.m[k], item.msg)
    case _ => item.Child? && Fits(m, item.msg)
  }

  // ---------- What is kept and what is cleared ----------

  lemma {:induction false} SegmentsStep(place: Place)
    requires place != []
    ensures Segments(place)[0] == place[0].field
    ensures place[0].slot.Key? ==>
      Segments(place)[1..] != [] && Segments(place)[1] == place[0].slot.key
      && Segments(place)[2..] == Segments(place[1..])
    ensures !place[0].slot.Key? ==> Segments(place)[1..] == Segments(place[1..])
  {
  }

  lemma {:induction false} FilterAt(mask: Mask, msg: Msg, step: Step)
    requires mask != ALL
    ensures ItemAt(FilterValue(mask, msg), step) ==
            if step.field !in mask.m then None
            else if mask.m[step.field] == ALL || ItemAt(msg, step) == None then ItemAt(msg, step)
            else FilterItem(mask.m[step.field], step.slot, ItemAt(msg, step).value)
  {
  }

  lemma {:induction false} PruneAt(mask: Mask, msg: Msg, step: Step)
    requires mask != ALL
    ensures ItemAt(PruneValue(mask, msg), step) ==
            if step.field !in mask.m || ItemAt(msg, step) == None then ItemAt(msg, step)
            else if mask.m[step.field] == ALL then None
            else PruneItem(mask.m[step.field], step.slot, ItemAt(msg, step).value)
  {
  }

  /** The part of the mask that an item is filtered with; None when no part goes on below it. */
  function Below(mask: Mask, step: Step): Option<Mask> {
    if step.field !in mask.m || mask.m[step.field] == ALL then None
    else if !step.slot.Key? then Some(mask.m[step.field])
    else if step.slot.key in mask.m[step.field].m && mask.m[step.field].m[step.slot.key] != ALL
    then Some(mask.m[step.field].m[step.slot.key])
    else None
  }

  /** Whether the mask ends at or before an item: only then does Below say None and the item is listed. */
  predicate Listed(mask: Mask, step: Step) {
    step.field in mask.m
    && (mask.m[step.field] == ALL
        || (step.slot.Key? && step.slot.key in mask.m[step.field].m
            && mask.m[step.field].m[step.slot.key] == ALL))
  }

  lemma {:induction false} TouchedBelow(mask: Mask, place: Place)
    requires place != []
    ensures var sub := Below(mask, place[0]);
            Touched(mask, Segments(place)) <==>
              if sub.Some? then Touched(sub.value, Segments(place[1..])) else Listed(mask, place[0])
  {
    SegmentsStep(place);
    assert Segments(place)[1..] != [] && place[0].slot.Key? ==> Segments(place)[1..][1..] == Segments(place)[2..];
  }

  lemma {:induction false} CoveredBelow(mask: Mask, place: Place)
    requires place != []
    ensures var sub := Below(mask, place[0]);
            Covered(mask, Segments(place)) <==>
              if sub.Some? then Covered(sub.value, Segments(place[1..])) else Listed(mask, place[0])
  {
    SegmentsStep(place);
    assert Segments(place)[1..] != [] && place[0].slot.Key? ==> Segments(place)[1..][1..] == Segments(place)[2..];
  }

  /** Filter keeps exactly the items at places that some path of the mask begins or goes on from. */
  lemma {:induction false} FilterKeeps(mask: Mask, msg: Msg, place: Place)
    requires mask != ALL && place != [] && Fits(mask, msg)
    ensures ShapeAt(FilterValue(mask, msg), place) ==
            if Touched(mask, Segments(place)) then ShapeAt(msg, place) else None
    decreases |place|
  {
    SegmentsStep(place);
    FilterAt(mask, msg, place[0]);
    var sub, item := Below(mask, place[0]), ItemAt(msg, place[0]);
    TouchedBelow(mask, place);
    if sub.Some? && item.Some? {
      assert FitsItem(mask.m[place[0].field], place[0].slot, item.value);
      if item.value.Child? && |place| > 1 {
        FilterKeeps(sub.value, item.value.msg, place[1..]);
      }
    }
  }

  /** Prune clears exactly the items at places that some path of the mask begins. */
  lemma {:induction false} PruneKeeps(mask: Mask, msg: Msg, place: Place)
    requires mask != ALL && place != [] && Fits(mask, msg)
    ensures ShapeAt(PruneValue(mask, msg), place) ==
            if Covered(mask, Segments(place)) then None else ShapeAt(msg, place)
    decreases |place|
  {
    SegmentsStep(place);
    PruneAt(mask, msg, place[0]);
    var sub, item := Below(mask, place[0]), ItemAt(msg, place[0]);
    CoveredBelow(mask, place);
    if sub.Some? && item.Some? {
      assert FitsItem(mask.m[place[0].field], place[0].slot, item.value);
      if item.value.Child? && |place| > 1 {
        PruneKeeps(sub.value, item.value.msg, place[1..]);
      }
    }
  }

  lemma {:induction false} ScalarTouchedIsCovered(mask: Mask, msg: Msg, place: Place)
    requires mask != ALL && place != [] && Fits(mask, msg)
    requires ShapeAt(msg, place).Some? && ShapeAt(msg, place).value.Scalar?
    ensures Touched(mask, Segments(place)) <==> Covered(mask, Segments(place))
    decreases |place|
  {
    SegmentsStep(place);
    var sub, item := Below(mask, place[0]), ItemAt(msg, place[0]);
    if sub.Some? && item.value.Child? {
      ScalarTouchedIsCovered(sub.value, item.value.msg, place[1..]);
    }
  }

  /** From the paths to the message: with prefix-free paths, Filter keeps the scalars some path leads
      to, Prune keeps the others, and no scalar changes its value or appears from nowhere. */
  lemma {:induction false} FilterAndPrunePartition(ps: seq<Path>, msg: Msg, place: Place)
    requires ps != [] && AllProper(ps) && PrefixFree(ps) && place != []
    requires Fits(FromPaths(AllDotted(ps)), msg)
    requires ShapeAt(msg, place).Some? && ShapeAt(msg, place).value.Scalar?
    ensures var mask := FromPaths(AllDotted(ps));
            var listed := exists p :: p in ps && Begins(p, Segments(place));
            ShapeAt(FilterValue(mask, msg), place) == (if listed then ShapeAt(msg, place) else None)
            && ShapeAt(PruneValue(mask, msg), place) == (if listed then None else ShapeAt(msg, place))
  {
    var mask, segs := FromPaths(AllDotted(ps)), Segments(place);
    PrefixFreePathsAreKept(ps, ps[0]);
    FilterKeeps(mask, msg, place);
    PruneKeeps(mask, msg, place);
    ScalarTouchedIsCovered(mask, msg, place);
    CoveredByPath(mask, segs);
    forall p ensures HasPath(mask, p) <==> p in ps {
      PrefixFreePathsAreKept(ps, p);
    }
  }

  // ---------- Doing it twice ----------

  lemma {:induction false} FilterTwice(mask: Mask, msg: Msg)
    ensures FilterValue(mask, FilterValue(mask, msg)) == FilterValue(mask, msg)
    decreases mask, 0
  {
    if mask != ALL {
      var once := FilterValue(mask, msg);
      forall f | f in once.fields ensures FilterValue(mask, once).fields[f] == once.fields[f] {
        if mask.m[f] != ALL {
          FilterSlotsTwice(mask.m[f], msg.fields[f]);
        }
      }
      assert FilterValue(mask, once).fields == once.fields;
    }
  }

  lemma {:induction false} FilterSlotsTwice(m: Mask, slots: map<Slot, Item>)
    ensures FilterSlots(m, FilterSlots(m, slots)) == FilterSlots(m, slots)
    decreases m, 2
  {
    var once := FilterSlots(m, slots);
    forall s | s in once ensures FilterItem(m, s, once[s]) == Some(once[s]) {
      if slots[s].Child? {
        if !s.Key? {
          FilterTwice(m, slots[s].msg);
        } else if m.m[s.key] != ALL {
          FilterTwice(m.m[s.key], slots[s].msg);
        }
      }
    }
  }

  lemma {:induction false} PruneTwice(mask: Mask, msg: Msg)
    ensures PruneValue(mask, PruneValue(mask, msg)) == PruneValue(mask, msg)
    decreases mask, 0
  {
    if mask != ALL {
      var once := PruneValue(mask, msg);
      forall f | f in once.fields ensures PruneValue(mask, once).fields[f] == once.fields[f] {
        if f in mask.m {
          PruneSlotsTwice(mask.m[f], msg.fields[f]);
        }
      }
      assert PruneValue(mask, once).fields == once.fields;
    }
  }

  lemma {:induction false} PruneSlotsTwice(m: Mask, slots: map<Slot, Item>)
    ensures PruneSlots(m, PruneSlots(m, slots)) == PruneSlots(m, slots)
    decreases m, 2
  {
    var once := PruneSlots(m, slots);
    forall s | s in once ensures PruneItem(m, s, once[s]) == Some(once[s]) {
      if slots[s].Child? {
        if !s.Key? {
          PruneTwice(m, slots[s].msg);
        } else if s.key in m.m {
          PruneTwice(m.m[s.key], slots[s].msg);
        }
      }
    }
  }
}
