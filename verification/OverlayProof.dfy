/** Applying an emitted patch list performs the recursive merge exactly when plain array
    elements come before anchored ones; otherwise it fails. */
module OverlayProof {
  import opened Json
  import opened JsonPatch
  import opened Anchors
  import opened OverlaySpec

  /** The document after applying a patch list, given whether it should apply at all. */
  ghost function When(ordered: bool, doc: Json): Option<Json> {
    if ordered then Some(doc) else None
  }

  /** Every operation addresses something below the resource. */
  ghost predicate Below(ops: seq<Op>) {
    forall i | 0 <= i < |ops| :: ops[i].path != []
  }

  /** An emitted operation that addresses the whole resource replaces it, except that an empty
      array is filled by an addition. */
  lemma {:induction false} EmittedShape(resource: Json, overlay: Json, ops: seq<Op>)
    requires Emits(resource, overlay, ops)
    ensures forall op | op in ops && op.path == [] ::
              op.verb == Replace || (op.verb == Add && resource.Arr? && overlay.Arr?)
  {
    if SameType(resource, overlay) {
      match overlay
      case Obj(fields) => KeysShape(resource, overlay, fields.Keys, ops);
      case Arr(items) => if resource.items != [] { ElementsShape(resource, overlay, |items|, ops); }
      case _ =>
    }
  }

  lemma {:induction false} KeysShape(resource: Json, overlay: Json, keys: set<string>, ops: seq<Op>)
    requires resource.Obj? && overlay.Obj? && keys <= overlay.fields.Keys
    requires EmitsKeys(resource, overlay, keys, ops)
    ensures Below(ops)
    decreases |keys|
  {
    if keys != {} {
      var k, before, last :| k in keys && Joined(ops, before, last)
        && EmitsKeys(resource, overlay, keys - {k}, before) && EmitsKey(resource, overlay, k, last);
      KeysShape(resource, overlay, keys - {k}, before);
      KeyShape(resource, overlay, k, last);
    }
  }

  lemma KeyShape(resource: Json, overlay: Json, key: string, ops: seq<Op>)
    requires resource.Obj? && overlay.Obj? && key in overlay.fields
    requires EmitsKey(resource, overlay, key, ops)
    ensures Below(ops)
  {
  }

  lemma {:induction false} ElementsShape(resource: Json, overlay: Json, n: nat, ops: seq<Op>)
    requires resource.Arr? && overlay.Arr? && n <= |overlay.items|
    requires EmitsElements(resource, overlay, n, ops)
    ensures Below(ops)
  {
    if n > 0 {
      var before, last :| Joined(ops, before, last)
        && EmitsElements(resource, overlay, n - 1, before) && EmitsElement(resource, overlay, n - 1, last);
      ElementsShape(resource, overlay, n - 1, before);
      if Anchored(overlay, n - 1) {
        EachShape(resource, overlay, n - 1, |resource.items|, last);
      }
    }
  }

  lemma {:induction false} EachShape(resource: Json, overlay: Json, i: nat, n: nat, ops: seq<Op>)
    requires resource.Arr? && overlay.Arr? && i < |overlay.items| && n <= |resource.items|
    requires EmitsEach(resource, overlay, i, n, ops)
    ensures Below(ops)
    decreases n
  {
    if n > 0 {
      var before, last :| Joined(ops, before, last) && EmitsEach(resource, overlay, i, n - 1, before)
        && EmitsBelow(resource.items[n - 1], overlay.items[i], Itoa(n - 1), last);
      EachShape(resource, overlay, i, n - 1, before);
    }
  }

  /** The main theorem: whatever order the maps were ranged over, the emitted operations
      applied one by one to the changing document perform the merge, or fail exactly when a
      plain array element follows an anchored one. */
  lemma {:induction false} PatchesPerformMerge(resource: Json, overlay: Json, ops: seq<Op>)
    requires Emits(resource, overlay, ops)
    requires Clear(resource, overlay)
    ensures ApplyAll(resource, ops) == When(Ordered(resource, overlay), Merge(resource, overlay))
    decreases overlay, 1, 0
  {
    if !SameType(resource, overlay) {
      SubtreeApplied(resource, overlay, Replace, ops);
    } else {
      match overlay
      case Obj(fields) =>
        KeysApplied(resource, overlay, fields.Keys, ops);
      case Arr(items) =>
        if resource.items == [] {
          SubtreeApplied(resource, overlay, Add, ops);
        } else {
          ElementsApplied(resource, overlay, |items|, ops);
        }
      case Null =>
      case _ =>
        ApplyOne(resource, ops[0]);
    }
  }

  lemma ApplyOne(doc: Json, op: Op)
    ensures ApplyAll(doc, [op]) == ApplyOp(doc, op)
  {
    assert [op][1..] == [];
  }

  lemma SubtreeApplied(resource: Json, overlay: Json, verb: Verb, ops: seq<Op>)
    requires verb != Remove
    requires StripClear(overlay)
    requires EmitsSubtree(overlay, verb, [], ops)
    ensures ApplyAll(resource, ops) == Some(Strip(overlay))
  {
    var value :| Strips(overlay, value) && ops == [Op(verb, [], value)];
    ClearStrips(overlay, value);
    ApplyOne(resource, ops[0]);
  }

  lemma {:induction false} KeysApplied(resource: Json, overlay: Json, keys: set<string>, ops: seq<Op>)
    requires resource.Obj? && overlay.Obj? && keys <= overlay.fields.Keys
    requires EmitsKeys(resource, overlay, keys, ops)
    requires DistinctNames(resource, overlay) && forall k | k in keys :: ClearKey(resource, overlay, k)
    ensures ApplyAll(resource, ops)
         == When(forall k | k in keys :: OrderedKey(resource, overlay, k),
                 Obj(MergedFields(resource, overlay, keys)))
    decreases overlay, 0, |keys|
  {
    if keys == {} {
      assert MergedFields(resource, overlay, keys) == resource.fields;
    } else {
      var k, before, last :| k in keys && Joined(ops, before, last)
        && EmitsKeys(resource, overlay, keys - {k}, before) && EmitsKey(resource, overlay, k, last);
      KeysApplied(resource, overlay, keys - {k}, before);
      ApplyConcat(resource, before, last);
      if forall k' | k' in keys - {k} :: OrderedKey(resource, overlay, k') {
        KeyApplied(resource, overlay, keys, k, last);
        assert forall k' | k' in keys :: k' == k || k' in keys - {k};
      }
    }
  }

  lemma {:induction false} KeyApplied(resource: Json, overlay: Json, keys: set<string>, key: string, ops: seq<Op>)
    requires resource.Obj? && overlay.Obj? && key in keys && keys <= overlay.fields.Keys
    requires EmitsKey(resource, overlay, key, ops)
    requires DistinctNames(resource, overlay) && ClearKey(resource, overlay, key)
    ensures ApplyAll(Obj(MergedFields(resource, overlay, keys - {key})), ops)
         == When(OrderedKey(resource, overlay, key), Obj(MergedFields(resource, overlay, keys)))
    decreases overlay, 0, 0
  {
    var doc := Obj(MergedFields(resource, overlay, keys - {key}));
    var name := RemoveAnchor(key);
    MergedFieldsStep(resource, overlay, keys, key);
    if !IsConditionAnchor(key) {
      var value := overlay.fields[key];
      if name !in resource.fields {
        var stripped :| Strips(value, stripped) && ops == [Op(Add, [name], stripped)];
        ClearStrips(value, stripped);
        ApplyOne(doc, ops[0]);
      } else {
        if !IsAddingAnchor(key) {
          UntouchedYet(resource, overlay, keys, key);
          var inner :| ops == Under(name, inner) && Emits(resource.fields[name], value, inner);
          EmittedShape(resource.fields[name], value, inner);
          Descend(doc, name, inner);
          PatchesPerformMerge(resource.fields[name], value, inner);
        }
      }
    }
  }

  /** The key does something to the member it names. */
  predicate Writes(resource: Json, key: string)
    requires resource.Obj?
  {
    !IsConditionAnchor(key) && !(IsAddingAnchor(key) && RemoveAnchor(key) in resource.fields)
  }

  /** Merging one more key changes only the member that key names. */
  lemma MergedFieldsStep(resource: Json, overlay: Json, keys: set<string>, key: string)
    requires resource.Obj? && overlay.Obj? && key in keys && keys <= overlay.fields.Keys
    requires DistinctNames(resource, overlay)
    ensures var before := MergedFields(resource, overlay, keys - {key});
            MergedFields(resource, overlay, keys)
            == if Writes(resource, key) then before[RemoveAnchor(key) := MergedMember(resource, overlay, key)]
               else before
  {
    MembersStep(resource, overlay, keys, key);
    forall n | n in MergedFields(resource, overlay, keys) {
      StepMember(resource, overlay, keys, key, n);
    }
    MapStep(MergedFields(resource, overlay, keys - {key}), MergedFields(resource, overlay, keys),
            if Writes(resource, key) then {RemoveAnchor(key)} else {}, MergedMember(resource, overlay, key));
  }

  /** A map that differs from another at no place, or at one. */
  lemma MapStep(before: map<string, Json>, after: map<string, Json>, at: set<string>, value: Json)
    requires after.Keys == before.Keys + at
    requires forall n | n in after :: after[n] == if n in at then value else before[n]
    ensures at == {} ==> after == before
    ensures forall name | at == {name} :: after == before[name := value]
  {
    if at == {} {
      assert after == before;
    }
    forall name | at == {name} ensures after == before[name := value] {
      assert after.Keys == before[name := value].Keys;
    }
  }

  lemma StepMember(resource: Json, overlay: Json, keys: set<string>, key: string, n: string)
    requires resource.Obj? && overlay.Obj? && key in keys && keys <= overlay.fields.Keys
    requires DistinctNames(resource, overlay) && n in MergedFields(resource, overlay, keys)
    ensures if !Writes(resource, key) || n != RemoveAnchor(key) then
              && n in MergedFields(resource, overlay, keys - {key})
              && MergedFields(resource, overlay, keys)[n] == MergedFields(resource, overlay, keys - {key})[n]
            else
              MergedFields(resource, overlay, keys)[n] == MergedMember(resource, overlay, key)
  {
    if !Writes(resource, key) || n != RemoveAnchor(key) {
      SameMember(resource, overlay, keys, key, n);
    } else {
      var k := KeyNamed(overlay, keys, n);
      assert k == key || MergedMember(resource, overlay, k) == MergedMember(resource, overlay, key);
    }
  }

  lemma MembersStep(resource: Json, overlay: Json, keys: set<string>, key: string)
    requires resource.Obj? && overlay.Obj? && key in keys && keys <= overlay.fields.Keys
    ensures MergedFields(resource, overlay, keys).Keys
         == MergedFields(resource, overlay, keys - {key}).Keys
            + if Writes(resource, key) then {RemoveAnchor(key)} else {}
  {
    NamesStep(overlay, keys, key);
  }

  lemma NamesStep(overlay: Json, keys: set<string>, key: string)
    requires overlay.Obj? && key in keys && keys <= overlay.fields.Keys
    ensures Names(overlay, keys)
         == Names(overlay, keys - {key}) + if IsConditionAnchor(key) then {} else {RemoveAnchor(key)}
  {
  }

  lemma SameMember(resource: Json, overlay: Json, keys: set<string>, key: string, n: string)
    requires resource.Obj? && overlay.Obj? && key in keys && keys <= overlay.fields.Keys
    requires DistinctNames(resource, overlay)
    requires n in MergedFields(resource, overlay, keys) && (!Writes(resource, key) || n != RemoveAnchor(key))
    ensures n in MergedFields(resource, overlay, keys - {key})
    ensures MergedFields(resource, overlay, keys)[n] == MergedFields(resource, overlay, keys - {key})[n]
  {
    if n in Names(overlay, keys - {key}) {
      var k, k' := KeyNamed(overlay, keys, n), KeyNamed(overlay, keys - {key}, n);
      assert k' == k || MergedMember(resource, overlay, k') == MergedMember(resource, overlay, k);
    }
  }

  lemma UntouchedYet(resource: Json, overlay: Json, keys: set<string>, key: string)
    requires resource.Obj? && overlay.Obj? && key in keys && keys <= overlay.fields.Keys
    requires DistinctNames(resource, overlay) && RemoveAnchor(key) in resource.fields && Writes(resource, key)
    ensures var before := MergedFields(resource, overlay, keys - {key});
            RemoveAnchor(key) in before && before[RemoveAnchor(key)] == resource.fields[RemoveAnchor(key)]
  {
    var name := RemoveAnchor(key);
    if name in Names(overlay, keys - {key}) {
      assert IsAddingAnchor(KeyNamed(overlay, keys - {key}, name));
    }
  }

  lemma {:induction false} ElementsApplied(resource: Json, overlay: Json, n: nat, ops: seq<Op>)
    requires resource.Arr? && overlay.Arr? && n <= |overlay.items|
    requires EmitsElements(resource, overlay, n, ops)
    requires resource.items != [] && Clear(resource, overlay)
    ensures ApplyAll(resource, ops)
         == When(OrderedElements(resource, overlay, n), Arr(MergedItems(resource, overlay, n)))
    decreases overlay, 0, |resource.items| + 2 + n
  {
    if n == 0 {
      assert MergedItems(resource, overlay, 0) == resource.items;
    } else {
      var before, last :| Joined(ops, before, last)
        && EmitsElements(resource, overlay, n - 1, before) && EmitsElement(resource, overlay, n - 1, last);
      ElementsApplied(resource, overlay, n - 1, before);
      ApplyConcat(resource, before, last);
      if OrderedElements(resource, overlay, n - 1) {
        ElementApplied(resource, overlay, n, last);
      }
    }
  }

  lemma {:induction false} ElementApplied(resource: Json, overlay: Json, n: nat, ops: seq<Op>)
    requires resource.Arr? && overlay.Arr? && 0 < n <= |overlay.items|
    requires EmitsElement(resource, overlay, n - 1, ops)
    requires resource.items != [] && Clear(resource, overlay) && OrderedElements(resource, overlay, n - 1)
    ensures ApplyAll(Arr(MergedItems(resource, overlay, n - 1)), ops)
         == When(OrderedElements(resource, overlay, n), Arr(MergedItems(resource, overlay, n)))
    decreases overlay, 0, |resource.items| + 2
  {
    if Anchored(overlay, n - 1) {
      AnchoredApplied(resource, overlay, n, ops);
      AnchoredOrder(resource, overlay, n);
    } else {
      assert ClearElement(resource, overlay, n - 1);
      PlainApplied(resource, overlay, n, ops);
    }
  }

  ghost predicate AllOrdered(resource: Json, overlay: Json, n: nat)
    requires resource.Arr? && n <= |resource.items|
  {
    forall j | 0 <= j < n :: Ordered(resource.items[j], overlay)
  }

  lemma AnchoredOrder(resource: Json, overlay: Json, n: nat)
    requires resource.Arr? && overlay.Arr? && 0 < n <= |overlay.items| && Anchored(overlay, n - 1)
    requires OrderedElements(resource, overlay, n - 1)
    ensures OrderedElements(resource, overlay, n)
       <==> AllOrdered(resource, overlay.items[n - 1], |resource.items|)
  {
  }

  /** A plain element is appended if nothing anchored came before it; otherwise its index lies
      beyond the end of the array. */
  lemma PlainApplied(resource: Json, overlay: Json, n: nat, ops: seq<Op>)
    requires resource.Arr? && overlay.Arr? && 0 < n <= |overlay.items| && !Anchored(overlay, n - 1)
    requires EmitsElement(resource, overlay, n - 1, ops)
    requires resource.items != [] && ClearElement(resource, overlay, n - 1)
    requires OrderedElements(resource, overlay, n - 1)
    ensures ApplyAll(Arr(MergedItems(resource, overlay, n - 1)), ops)
         == When(OrderedElements(resource, overlay, n), Arr(MergedItems(resource, overlay, n)))
  {
    var items := MergedItems(resource, overlay, n - 1);
    var index := |resource.items| + n - 1;
    var value := overlay.items[n - 1];
    var stripped :| Strips(value, stripped) && ops == [Op(Add, [Itoa(index)], stripped)];
    ClearStrips(value, stripped);
    IndexRoundTrip(index);
    ApplyOne(Arr(items), ops[0]);
    assert OrderedElements(resource, overlay, n) <==> forall i | 0 <= i < n - 1 :: !Anchored(overlay, i);
    if |items| == index {
      assert items[..index] + [stripped] + items[index..] == items + [stripped];
      PlainStep(resource, overlay, n);
    }
  }

  lemma PlainStep(resource: Json, overlay: Json, n: nat)
    requires resource.Arr? && overlay.Arr? && 0 < n <= |overlay.items| && !Anchored(overlay, n - 1)
    ensures MergedItems(resource, overlay, n) == MergedItems(resource, overlay, n - 1) + [Strip(overlay.items[n - 1])]
  {
    forall j | 0 <= j < |resource.items|
      ensures MergedItem(resource.items[j], overlay, n) == MergedItem(resource.items[j], overlay, n - 1)
    {
    }
  }

  lemma {:induction false} AnchoredApplied(resource: Json, overlay: Json, n: nat, ops: seq<Op>)
    requires resource.Arr? && overlay.Arr? && 0 < n <= |overlay.items| && Anchored(overlay, n - 1)
    requires resource.items != [] && Clear(resource, overlay)
    requires EmitsEach(resource, overlay, n - 1, |resource.items|, ops) && overlay.items[n - 1].Obj?
    ensures ApplyAll(Arr(MergedItems(resource, overlay, n - 1)), ops)
         == When(AllOrdered(resource, overlay.items[n - 1], |resource.items|),
                 Arr(MergedItems(resource, overlay, n)))
    decreases overlay, 0, |resource.items| + 1
  {
    var current := Sofar(resource, overlay, n - 1);
    AllStillClear(resource, overlay, n - 1);
    StillEmitted(resource, overlay, n - 1, |resource.items|, ops);
    AnchoredStep(resource, overlay, n);
    EachApplied(current, overlay, n - 1, |resource.items|, MergedItems(resource, overlay, n - 1), ops);
  }

  /** One more anchored element is merged into the elements as they are by then. */
  lemma AnchoredStep(resource: Json, overlay: Json, n: nat)
    requires resource.Arr? && overlay.Arr? && 0 < n <= |overlay.items| && Anchored(overlay, n - 1)
    ensures var items, current := MergedItems(resource, overlay, n - 1), Sofar(resource, overlay, n - 1);
            && |resource.items| <= |items| && (forall j | 0 <= j < |resource.items| :: items[j] == current.items[j])
            && MergedInto(current, overlay, n - 1, |resource.items|, items) == MergedItems(resource, overlay, n)
  {
    var items, current := MergedItems(resource, overlay, n - 1), Sofar(resource, overlay, n - 1);
    var merged := MergedInto(current, overlay, n - 1, |resource.items|, items);
    forall j | 0 <= j < |merged| ensures merged[j] == MergedItems(resource, overlay, n)[j] {
    }
  }

  /** The elements the array had, with the first `n` overlay elements merged into them. */
  ghost function Sofar(resource: Json, overlay: Json, n: nat): (current: Json)
    requires resource.Arr? && overlay.Arr? && n <= |overlay.items|
    ensures current.Arr? && |current.items| == |resource.items|
  {
    Arr(seq(|resource.items|, j requires 0 <= j < |resource.items| => MergedItem(resource.items[j], overlay, n)))
  }

  lemma AllStillClear(resource: Json, overlay: Json, i: nat)
    requires resource.Arr? && overlay.Arr? && i < |overlay.items|
    requires resource.items != [] && Clear(resource, overlay) && Anchored(overlay, i)
    ensures var current := Sofar(resource, overlay, i);
            && (forall j | 0 <= j < |resource.items| :: Clear(current.items[j], overlay.items[i]))
            && (AllOrdered(current, overlay.items[i], |resource.items|)
                <==> AllOrdered(resource, overlay.items[i], |resource.items|))
  {
    var current := Sofar(resource, overlay, i);
    assert ClearElement(resource, overlay, i);
    forall j | 0 <= j < |resource.items|
      ensures Clear(current.items[j], overlay.items[i])
      ensures Ordered(current.items[j], overlay.items[i]) <==> Ordered(resource.items[j], overlay.items[i])
    {
      StillClear(resource, overlay, i, j);
      if current.items[j] != resource.items[j] {
        AgreeingIsClear(resource.items[j], current.items[j], overlay.items[i]);
      }
    }
  }

  /** What the anchored elements before element `i` did to a resource element makes no
      difference to element `i`. */
  lemma StillClear(resource: Json, overlay: Json, i: nat, j: nat)
    requires resource.Arr? && overlay.Arr? && i < |overlay.items| && j < |resource.items|
    requires resource.items != [] && Clear(resource, overlay) && Anchored(overlay, i)
    ensures var item, current, value := resource.items[j], MergedItem(resource.items[j], overlay, i), overlay.items[i];
            current == item || Agree(item, current, value)
  {
    if forall i' | 0 <= i' < i :: !Anchored(overlay, i') {
      NothingAnchoredYet(resource.items[j], overlay, i);
    } else {
      OthersStayAway(resource.items[j], overlay, i, i);
    }
  }

  lemma {:induction false} StillEmitted(resource: Json, overlay: Json, i: nat, n: nat, ops: seq<Op>)
    requires resource.Arr? && overlay.Arr? && i < |overlay.items| && n <= |resource.items|
    requires resource.items != [] && Clear(resource, overlay) && Anchored(overlay, i)
    requires EmitsEach(resource, overlay, i, n, ops)
    ensures EmitsEach(Sofar(resource, overlay, i), overlay, i, n, ops)
    decreases n
  {
    if n > 0 {
      var current := Sofar(resource, overlay, i);
      var before, last :| Joined(ops, before, last) && EmitsEach(resource, overlay, i, n - 1, before)
        && EmitsBelow(resource.items[n - 1], overlay.items[i], Itoa(n - 1), last);
      StillEmitted(resource, overlay, i, n - 1, before);
      StillClear(resource, overlay, i, n - 1);
      AgreeingEmitsBelow(resource.items[n - 1], current.items[n - 1], overlay.items[i], Itoa(n - 1), last);
    }
  }

  lemma AgreeingEmitsBelow(resource: Json, other: Json, overlay: Json, token: string, ops: seq<Op>)
    requires resource == other || Agree(resource, other, overlay)
    requires EmitsBelow(resource, overlay, token, ops)
    ensures EmitsBelow(other, overlay, token, ops)
  {
    if resource != other {
      var inner :| ops == Under(token, inner) && Emits(resource, overlay, inner);
      AgreeingEmits(resource, other, overlay, overlay.fields.Keys, inner);
      assert Emits(other, overlay, inner);
    }
  }

  // ---------- Resources an overlay cannot tell apart ----------

  /** Two maps that agree on every member the overlay names. */
  ghost predicate Agree(resource: Json, other: Json, overlay: Json) {
    && resource.Obj? && other.Obj? && overlay.Obj?
    && forall name | name in AllNames(overlay) ::
         && (name in resource.fields <==> name in other.fields)
         && (name in resource.fields ==> resource.fields[name] == other.fields[name])
  }

  lemma NamedAlike(resource: Json, other: Json, overlay: Json, key: string)
    requires Agree(resource, other, overlay) && key in overlay.fields && !IsConditionAnchor(key)
    ensures var name := RemoveAnchor(key);
            && (name in resource.fields <==> name in other.fields)
            && (name in resource.fields ==> resource.fields[name] == other.fields[name])
  {
    assert RemoveAnchor(key) in AllNames(overlay);
  }

  lemma AgreeingIsClear(resource: Json, other: Json, overlay: Json)
    requires Agree(resource, other, overlay)
    ensures Clear(resource, overlay) <==> Clear(other, overlay)
    ensures Ordered(resource, overlay) <==> Ordered(other, overlay)
  {
    forall k | k in overlay.fields
      ensures ClearKey(resource, overlay, k) <==> ClearKey(other, overlay, k)
      ensures OrderedKey(resource, overlay, k) <==> OrderedKey(other, overlay, k)
      ensures !IsConditionAnchor(k) ==> (RemoveAnchor(k) in resource.fields <==> RemoveAnchor(k) in other.fields)
    {
      if !IsConditionAnchor(k) {
        NamedAlike(resource, other, overlay, k);
      }
    }
    assert DistinctNames(resource, overlay) <==> DistinctNames(other, overlay);
  }

  lemma {:induction false} AgreeingEmits(resource: Json, other: Json, overlay: Json, keys: set<string>, ops: seq<Op>)
    requires Agree(resource, other, overlay) && keys <= overlay.fields.Keys
    requires EmitsKeys(resource, overlay, keys, ops)
    ensures EmitsKeys(other, overlay, keys, ops)
    decreases |keys|
  {
    if keys != {} {
      var k, before, last :| k in keys && Joined(ops, before, last)
        && EmitsKeys(resource, overlay, keys - {k}, before) && EmitsKey(resource, overlay, k, last);
      AgreeingEmits(resource, other, overlay, keys - {k}, before);
      if !IsConditionAnchor(k) {
        NamedAlike(resource, other, overlay, k);
      }
      assert EmitsKey(other, overlay, k, last);
    }
  }

  /** The first `n` overlay elements leave the members that anchored element `i` names alone. */
  lemma {:induction false} OthersStayAway(item: Json, overlay: Json, i: nat, n: nat)
    requires item.Obj? && overlay.Arr? && n <= i < |overlay.items| && Anchored(overlay, i) && AnchoredApart(overlay)
    ensures Agree(item, MergedItem(item, overlay, n), overlay.items[i])
    decreases n
  {
    if n > 0 {
      OthersStayAway(item, overlay, i, n - 1);
      var sofar := MergedItem(item, overlay, n - 1);
      if Anchored(overlay, n - 1) {
        assert AllNames(overlay.items[n - 1]) !! AllNames(overlay.items[i]);
        assert Merge(sofar, overlay.items[n - 1])
          == Obj(MergedFields(sofar, overlay.items[n - 1], overlay.items[n - 1].fields.Keys));
      }
    }
  }

  lemma {:induction false} NothingAnchoredYet(item: Json, overlay: Json, n: nat)
    requires overlay.Arr? && n <= |overlay.items|
    requires forall i | 0 <= i < n :: !Anchored(overlay, i)
    ensures MergedItem(item, overlay, n) == item
  {
    if n > 0 {
      NothingAnchoredYet(item, overlay, n - 1);
    }
  }

  /** `items` with overlay element `i` merged into the first `n` resource elements. */
  ghost function MergedInto(resource: Json, overlay: Json, i: nat, n: nat, items: seq<Json>): seq<Json>
    requires resource.Arr? && overlay.Arr? && i < |overlay.items| && n <= |resource.items|
  {
    seq(|items|, j requires 0 <= j < |items| =>
      if j < n then Merge(resource.items[j], overlay.items[i]) else items[j])
  }

  lemma IntoStep(resource: Json, overlay: Json, i: nat, n: nat, items: seq<Json>)
    requires resource.Arr? && overlay.Arr? && i < |overlay.items| && 0 < n <= |resource.items| <= |items|
    ensures var before := MergedInto(resource, overlay, i, n - 1, items);
            && before[n - 1] == items[n - 1]
            && before[n - 1 := Merge(resource.items[n - 1], overlay.items[i])]
               == MergedInto(resource, overlay, i, n, items)
  {
  }

  lemma {:induction false} EachApplied(resource: Json, overlay: Json, i: nat, n: nat, items: seq<Json>, ops: seq<Op>)
    requires resource.Arr? && overlay.Arr? && i < |overlay.items| && n <= |resource.items| <= |items|
    requires forall j | 0 <= j < n :: items[j] == resource.items[j]
    requires overlay.items[i].Obj?
    requires EmitsEach(resource, overlay, i, n, ops)
    requires forall j | 0 <= j < n :: Clear(resource.items[j], overlay.items[i])
    ensures ApplyAll(Arr(items), ops)
         == When(AllOrdered(resource, overlay.items[i], n),
                 Arr(MergedInto(resource, overlay, i, n, items)))
    decreases overlay, 0, n
  {
    if n == 0 {
      assert MergedInto(resource, overlay, i, 0, items) == items;
    } else {
      var element, value, token := resource.items[n - 1], overlay.items[i], Itoa(n - 1);
      var before, last :| Joined(ops, before, last) && EmitsEach(resource, overlay, i, n - 1, before)
        && EmitsBelow(element, value, token, last);
      EachApplied(resource, overlay, i, n - 1, items, before);
      ApplyConcat(Arr(items), before, last);
      if AllOrdered(resource, value, n - 1) {
        OneApplied(resource, overlay, i, n, items, last);
        assert AllOrdered(resource, value, n) <==> Ordered(element, value);
      }
    }
  }

  lemma {:induction false} OneApplied(resource: Json, overlay: Json, i: nat, n: nat, items: seq<Json>, ops: seq<Op>)
    requires resource.Arr? && overlay.Arr? && i < |overlay.items| && 0 < n <= |resource.items| <= |items|
    requires items[n - 1] == resource.items[n - 1]
    requires overlay.items[i].Obj?
    requires EmitsBelow(resource.items[n - 1], overlay.items[i], Itoa(n - 1), ops)
    requires Clear(resource.items[n - 1], overlay.items[i])
    ensures ApplyAll(Arr(MergedInto(resource, overlay, i, n - 1, items)), ops)
         == When(Ordered(resource.items[n - 1], overlay.items[i]), Arr(MergedInto(resource, overlay, i, n, items)))
    decreases overlay, 0, 0
  {
    var element, value, token := resource.items[n - 1], overlay.items[i], Itoa(n - 1);
    var inner :| ops == Under(token, inner) && Emits(element, value, inner);
    var doc := Arr(MergedInto(resource, overlay, i, n - 1, items));
    IndexRoundTrip(n - 1);
    EmittedShape(element, value, inner);
    Descend(doc, token, inner);
    PatchesPerformMerge(element, value, inner);
    IntoStep(resource, overlay, i, n, items);
  }
}
