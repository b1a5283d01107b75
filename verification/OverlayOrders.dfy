/** What the order in which maps are ranged over can do: the documents that the patches can give,
    and when there is only one of them. */
module OverlayOrders {
  import opened Json
  import opened JsonPatch
  import opened Anchors
  import opened OverlaySpec
  import opened OverlayProof
  import opened OverlayTotality
  import opened OverlayNest
  import opened OverlayLaws

  /** Whatever the map order, the patches give the same document. */
  ghost predicate OneDocument(resource: Json, overlay: Json) {
    forall ops, ops' | MayReturn(resource, overlay, ops) && MayReturn(resource, overlay, ops') ::
      ApplyAll(resource, ops) == ApplyAll(resource, ops')
  }

  /** At most one anchored element in every array. */
  ghost predicate Lone(overlay: Json) {
    match overlay
    case Obj(fields) => forall k | k in fields :: Lone(fields[k])
    case Arr(items) =>
      && (forall i, i' | 0 <= i < i' < |items| :: !(Anchored(overlay, i) && Anchored(overlay, i')))
      && (forall i | 0 <= i < |items| :: Lone(items[i]))
    case _ => true
  }

  /** Wherever the merge inserts something, it strips to one value, and keys that share a new name
      insert one value. Keys that share the name of a member that exists do not matter. */
  ghost predicate OneInsert(resource: Json, overlay: Json)
    decreases overlay, 1
  {
    if !SameType(resource, overlay) then
      StripClear(overlay)
    else
      match overlay
      case Obj(fields) => SameInserts(resource, overlay) && forall k | k in fields :: OneInsertKey(resource, overlay, k)
      case Arr(items) =>
        if resource.items == [] then StripClear(overlay)
        else forall i | 0 <= i < |items| :: OneInsertElement(resource, overlay, i)
      case _ => true
  }

  ghost predicate SameInserts(resource: Json, overlay: Json)
    requires resource.Obj? && overlay.Obj?
  {
    forall k, k' | k in overlay.fields && k' in overlay.fields && !IsConditionAnchor(k) && !IsConditionAnchor(k')
      && RemoveAnchor(k) == RemoveAnchor(k') && RemoveAnchor(k) !in resource.fields ::
      Strip(overlay.fields[k]) == Strip(overlay.fields[k'])
  }

  ghost predicate OneInsertKey(resource: Json, overlay: Json, key: string)
    requires resource.Obj? && overlay.Obj? && key in overlay.fields
    decreases overlay, 0
  {
    var name := RemoveAnchor(key);
    || IsConditionAnchor(key)
    || if name !in resource.fields then StripClear(overlay.fields[key])
       else IsAddingAnchor(key) || OneInsert(resource.fields[name], overlay.fields[key])
  }

  ghost predicate OneInsertElement(resource: Json, overlay: Json, i: nat)
    requires resource.Arr? && overlay.Arr? && i < |overlay.items|
    decreases overlay, 0
  {
    if Anchored(overlay, i) then
      forall j | 0 <= j < |resource.items| :: OneInsert(resource.items[j], overlay.items[i])
    else
      StripClear(overlay.items[i])
  }

  // ---------- What the document may become ----------

  /** A merge that leaves it open which of several insertions under one name stays. */
  ghost predicate MayBecome(resource: Json, overlay: Json, doc: Json)
    decreases overlay, 1
  {
    if !SameType(resource, overlay) then
      Strips(overlay, doc)
    else
      match overlay
      case Obj(fields) =>
        && doc.Obj?
        && doc.fields.Keys == resource.fields.Keys + AllNames(overlay)
        && forall name | name in doc.fields :: MayBecomeAt(resource, overlay, name, doc.fields[name])
      case Arr(items) =>
        if resource.items == [] then
          Strips(overlay, doc)
        else
          && doc.Arr?
          && |doc.items| == |resource.items| + PlainCount(overlay, |items|)
          && (forall j | 0 <= j < |resource.items| :: MayBecomeItem(resource.items[j], overlay, doc.items[j]))
          && (forall i | 0 <= i < PlainCount(overlay, |items|) && i < |items| && !Anchored(overlay, i) ::
                Strips(items[i], doc.items[|resource.items| + i]))
      case _ => doc == overlay
  }

  ghost predicate MayBecomeAt(resource: Json, overlay: Json, name: string, value: Json)
    requires resource.Obj? && overlay.Obj?
    decreases overlay, 0
  {
    if name in resource.fields then
      if name in overlay.fields && IsPlain(name) then MayBecome(resource.fields[name], overlay.fields[name], value)
      else value == resource.fields[name]
    else
      exists k :: MayInsert(overlay, k, name, value)
  }

  ghost predicate MayInsert(overlay: Json, key: string, name: string, value: Json)
    requires overlay.Obj?
  {
    key in overlay.fields && !IsConditionAnchor(key) && RemoveAnchor(key) == name && Strips(overlay.fields[key], value)
  }

  ghost predicate MayBecomeItem(item: Json, overlay: Json, value: Json)
    requires overlay.Arr?
    decreases overlay, 0
  {
    && (forall i | 0 <= i < |overlay.items| && Anchored(overlay, i) :: MayBecome(item, overlay.items[i], value))
    && ((forall i | 0 <= i < |overlay.items| :: !Anchored(overlay, i)) ==> value == item)
  }

  // ---------- The merge is one of them ----------

  /** Plain elements that come first keep their places. */
  lemma {:induction false} PlainFirst(overlay: Json, n: nat, i: nat)
    requires overlay.Arr? && i < n <= |overlay.items| && !Anchored(overlay, i)
    requires forall i, i' | 0 <= i < i' < n && Anchored(overlay, i) :: Anchored(overlay, i')
    ensures i < |PlainItems(overlay, n)| && PlainItems(overlay, n)[i] == Strip(overlay.items[i])
  {
    if i == n - 1 {
      assert forall i' | 0 <= i' < i :: !Anchored(overlay, i');
      assert |PlainItems(overlay, i)| == i;
    } else {
      PlainFirst(overlay, n - 1, i);
    }
  }

  lemma {:induction false} MergeIsOne(resource: Json, overlay: Json)
    requires PlainKeys(overlay) && Lone(overlay) && Ordered(resource, overlay)
    ensures MayBecome(resource, overlay, Merge(resource, overlay))
    decreases overlay, 1
  {
    if !SameType(resource, overlay) || (overlay.Arr? && resource.items == []) {
      StripIsOne(overlay);
    } else {
      match overlay
      case Obj(fields) =>
        var merged := MergedFields(resource, overlay, fields.Keys);
        assert Merge(resource, overlay) == Obj(merged);
        forall name | name in merged ensures MayBecomeAt(resource, overlay, name, merged[name]) {
          MergedMemberIsOne(resource, overlay, name);
        }
      case Arr(items) =>
        MergedArrayIsOne(resource, overlay);
      case _ =>
    }
  }

  /** With the keys that admission allows, the plain key of a name is the name. */
  lemma PlainKeyOf(overlay: Json, key: string)
    requires PlainKeys(overlay) && overlay.Obj? && key in overlay.fields
    ensures !IsConditionAnchor(key) && !IsAddingAnchor(key) ==> IsPlain(key) && RemoveAnchor(key) == key
  {
  }

  lemma {:induction false} MergedMemberIsOne(resource: Json, overlay: Json, name: string)
    requires PlainKeys(overlay) && Lone(overlay) && Ordered(resource, overlay)
    requires resource.Obj? && overlay.Obj? && name in MergedFields(resource, overlay, overlay.fields.Keys)
    ensures MayBecomeAt(resource, overlay, name, MergedFields(resource, overlay, overlay.fields.Keys)[name])
    decreases overlay, 0
  {
    if name in resource.fields {
      MergedPlainly(resource, overlay, name);
      if name in overlay.fields && IsPlain(name) {
        assert OrderedKey(resource, overlay, name);
        MergeIsOne(resource.fields[name], overlay.fields[name]);
      }
    } else {
      MergedAnew(resource, overlay, name);
    }
  }

  /** A member that exists is merged with what its plain key says, and left alone otherwise. */
  lemma MergedPlainly(resource: Json, overlay: Json, name: string)
    requires PlainKeys(overlay) && resource.Obj? && overlay.Obj? && name in resource.fields
    ensures MergedFields(resource, overlay, overlay.fields.Keys)[name]
         == if name in overlay.fields && IsPlain(name) then Merge(resource.fields[name], overlay.fields[name])
            else resource.fields[name]
  {
    if name in AllNames(overlay) {
      var k := KeyNamed(overlay, overlay.fields.Keys, name);
      PlainKeyOf(overlay, k);
      if name in overlay.fields && IsPlain(name) {
        assert !IsAddingAnchor(k) && k == name;
      } else {
        assert IsAddingAnchor(k);
      }
    } else {
      assert !(name in overlay.fields && IsPlain(name));
    }
  }

  lemma MergedAnew(resource: Json, overlay: Json, name: string)
    requires resource.Obj? && overlay.Obj? && name in AllNames(overlay) && name !in resource.fields
    ensures var k := KeyNamed(overlay, overlay.fields.Keys, name);
            MergedFields(resource, overlay, overlay.fields.Keys)[name] == Strip(overlay.fields[k])
    ensures MayBecomeAt(resource, overlay, name, MergedFields(resource, overlay, overlay.fields.Keys)[name])
  {
    var k := KeyNamed(overlay, overlay.fields.Keys, name);
    StripIsOne(overlay.fields[k]);
    assert MayInsert(overlay, k, name, Strip(overlay.fields[k]));
  }

  lemma {:induction false} MergedArrayIsOne(resource: Json, overlay: Json)
    requires PlainKeys(overlay) && Lone(overlay) && Ordered(resource, overlay)
    requires resource.Arr? && overlay.Arr? && resource.items != []
    ensures MayBecome(resource, overlay, Merge(resource, overlay))
    decreases overlay, 0
  {
    var items, merged := overlay.items, Merge(resource, overlay);
    ArrayGrowth(resource, overlay);
    forall j | 0 <= j < |resource.items| ensures MayBecomeItem(resource.items[j], overlay, merged.items[j]) {
      forall i | 0 <= i < |items| && Anchored(overlay, i)
        ensures MayBecome(resource.items[j], items[i], merged.items[j])
      {
        OneAnchored(resource.items[j], overlay, i, |items|);
        MergeIsOne(resource.items[j], items[i]);
      }
      if forall i | 0 <= i < |items| :: !Anchored(overlay, i) {
        NothingAnchoredYet(resource.items[j], overlay, |items|);
      }
    }
    forall i | 0 <= i < PlainCount(overlay, |items|) && i < |items| && !Anchored(overlay, i)
      ensures Strips(items[i], merged.items[|resource.items| + i])
    {
      PlainFirst(overlay, |items|, i);
      StripIsOne(items[i]);
    }
  }

  // ---------- When it is the only one ----------

  lemma {:induction false} AnotherDocument(resource: Json, overlay: Json) returns (doc: Json)
    requires PlainKeys(overlay) && Lone(overlay) && Ordered(resource, overlay) && !OneInsert(resource, overlay)
    ensures MayBecome(resource, overlay, doc) && doc != Merge(resource, overlay)
    decreases overlay, 1
  {
    MergeIsOne(resource, overlay);
    if !SameType(resource, overlay) || (overlay.Arr? && resource.items == []) {
      doc := AnotherStrip(overlay);
    } else if overlay.Obj? {
      doc := AnotherMap(resource, overlay);
    } else {
      doc := AnotherArray(resource, overlay);
    }
  }

  lemma {:induction false} AnotherMap(resource: Json, overlay: Json) returns (doc: Json)
    requires PlainKeys(overlay) && Lone(overlay) && Ordered(resource, overlay) && !OneInsert(resource, overlay)
    requires resource.Obj? && overlay.Obj? && MayBecome(resource, overlay, Merge(resource, overlay))
    ensures MayBecome(resource, overlay, doc) && doc != Merge(resource, overlay)
    decreases overlay, 0
  {
    var merged := MergedFields(resource, overlay, overlay.fields.Keys);
    assert Merge(resource, overlay) == Obj(merged);
    var name, value;
    if !SameInserts(resource, overlay) {
      name, value := AnotherInsert(resource, overlay);
    } else {
      var k :| k in overlay.fields && !OneInsertKey(resource, overlay, k);
      name := RemoveAnchor(k);
      if name in resource.fields {
        PlainKeyOf(overlay, k);
        MergedPlainly(resource, overlay, name);
        assert OrderedKey(resource, overlay, k);
        value := AnotherDocument(resource.fields[name], overlay.fields[name]);
      } else {
        value := AnotherStrip(overlay.fields[k]);
        assert name in AllNames(overlay);
        MergedAnew(resource, overlay, name);
        assert MayInsert(overlay, k, name, value);
      }
    }
    doc := Obj(merged[name := value]);
    assert doc.fields[name] != merged[name];
    MemberReplaced(resource, overlay, merged, name, value);
  }

  lemma MemberReplaced(resource: Json, overlay: Json, merged: map<string, Json>, name: string, value: Json)
    requires resource.Obj? && overlay.Obj? && MayBecome(resource, overlay, Obj(merged))
    requires name in merged && MayBecomeAt(resource, overlay, name, value)
    ensures MayBecome(resource, overlay, Obj(merged[name := value]))
  {
    var doc := merged[name := value];
    assert doc.Keys == merged.Keys;
    forall n | n in doc ensures MayBecomeAt(resource, overlay, n, doc[n]) {
      assert n != name ==> MayBecomeAt(resource, overlay, n, merged[n]);
    }
  }

  lemma AnotherInsert(resource: Json, overlay: Json) returns (name: string, value: Json)
    requires resource.Obj? && overlay.Obj? && !SameInserts(resource, overlay)
    ensures name in MergedFields(resource, overlay, overlay.fields.Keys)
    ensures MayBecomeAt(resource, overlay, name, value)
            && value != MergedFields(resource, overlay, overlay.fields.Keys)[name]
  {
    var fields := overlay.fields;
    var k, k' :| k in fields && k' in fields && !IsConditionAnchor(k) && !IsConditionAnchor(k')
      && RemoveAnchor(k) == RemoveAnchor(k') && RemoveAnchor(k) !in resource.fields
      && Strip(fields[k]) != Strip(fields[k']);
    name := RemoveAnchor(k);
    assert name in AllNames(overlay);
    MergedAnew(resource, overlay, name);
    var other := if Strip(fields[k]) != MergedFields(resource, overlay, fields.Keys)[name] then k else k';
    value := Strip(fields[other]);
    StripIsOne(fields[other]);
    assert MayInsert(overlay, other, name, value);
  }

  lemma {:induction false} AnotherArray(resource: Json, overlay: Json) returns (doc: Json)
    requires PlainKeys(overlay) && Lone(overlay) && Ordered(resource, overlay) && !OneInsert(resource, overlay)
    requires resource.Arr? && overlay.Arr? && resource.items != []
             && MayBecome(resource, overlay, Merge(resource, overlay))
    ensures MayBecome(resource, overlay, doc) && doc != Merge(resource, overlay)
    decreases overlay, 0
  {
    var i :| 0 <= i < |overlay.items| && !OneInsertElement(resource, overlay, i);
    if Anchored(overlay, i) {
      var j :| 0 <= j < |resource.items| && !OneInsert(resource.items[j], overlay.items[i]);
      var value := AnotherDocument(resource.items[j], overlay.items[i]);
      doc := AnotherElement(resource, overlay, i, j, value);
    } else {
      doc := AnotherPlain(resource, overlay, i);
    }
  }

  lemma AnotherElement(resource: Json, overlay: Json, i: nat, j: nat, value: Json) returns (doc: Json)
    requires Lone(overlay) && resource.Arr? && overlay.Arr? && i < |overlay.items| && j < |resource.items|
    requires Anchored(overlay, i) && MayBecome(resource, overlay, Merge(resource, overlay))
    requires MayBecome(resource.items[j], overlay.items[i], value)
             && value != Merge(resource.items[j], overlay.items[i])
    ensures MayBecome(resource, overlay, doc) && doc != Merge(resource, overlay)
  {
    ArrayGrowth(resource, overlay);
    var merged := Merge(resource, overlay).items;
    OneAnchored(resource.items[j], overlay, i, |overlay.items|);
    doc := Arr(merged[j := value]);
    ElementReplaced(resource, overlay, merged, i, j, value);
    assert doc.items[j] != merged[j];
  }

  lemma AnotherPlain(resource: Json, overlay: Json, i: nat) returns (doc: Json)
    requires Ordered(resource, overlay) && resource.Arr? && overlay.Arr? && resource.items != [] && i < |overlay.items|
    requires !Anchored(overlay, i) && !StripClear(overlay.items[i])
             && MayBecome(resource, overlay, Merge(resource, overlay))
    ensures MayBecome(resource, overlay, doc) && doc != Merge(resource, overlay)
  {
    ArrayGrowth(resource, overlay);
    PlainFirst(overlay, |overlay.items|, i);
    PlainItemsCounted(overlay, |overlay.items|);
    var merged := Merge(resource, overlay).items;
    var value := AnotherStrip(overlay.items[i]);
    doc := Arr(merged[|resource.items| + i := value]);
    PlainReplaced(resource, overlay, merged, i, value);
    assert doc.items[|resource.items| + i] != merged[|resource.items| + i];
  }

  lemma ElementReplaced(resource: Json, overlay: Json, merged: seq<Json>, i: nat, j: nat, value: Json)
    requires resource.Arr? && overlay.Arr? && resource.items != [] && MayBecome(resource, overlay, Arr(merged))
    requires i < |overlay.items| && Anchored(overlay, i)
    requires forall i' | 0 <= i' < |overlay.items| && Anchored(overlay, i') :: i' == i
    requires j < |resource.items| && MayBecome(resource.items[j], overlay.items[i], value)
    ensures MayBecome(resource, overlay, Arr(merged[j := value]))
  {
    var doc := Arr(merged[j := value]);
    forall j' | 0 <= j' < |resource.items| ensures MayBecomeItem(resource.items[j'], overlay, doc.items[j']) {
      assert MayBecomeItem(resource.items[j'], overlay, merged[j']);
    }
  }

  lemma PlainReplaced(resource: Json, overlay: Json, merged: seq<Json>, i: nat, value: Json)
    requires resource.Arr? && overlay.Arr? && resource.items != [] && MayBecome(resource, overlay, Arr(merged))
    requires i < |overlay.items| && Strips(overlay.items[i], value) && |resource.items| + i < |merged|
    ensures MayBecome(resource, overlay, Arr(merged[|resource.items| + i := value]))
  {
    var doc := merged[|resource.items| + i := value];
    forall j | 0 <= j < |resource.items| ensures MayBecomeItem(resource.items[j], overlay, doc[j]) {
      assert doc[j] == merged[j];
    }
    forall i' | 0 <= i' < PlainCount(overlay, |overlay.items|) && i' < |overlay.items| && !Anchored(overlay, i')
      ensures Strips(overlay.items[i'], doc[|resource.items| + i'])
    {
      if i' != i {
        assert doc[|resource.items| + i'] == merged[|resource.items| + i'];
      }
    }
  }

  // ---------- All of them are reached ----------

  /** For every such document there is a patch list that gives it. */
  lemma {:induction false} Reached(resource: Json, overlay: Json, doc: Json) returns (ops: seq<Op>)
    requires PlainKeys(overlay) && Lone(overlay) && Ordered(resource, overlay)
    requires !Fails(resource, overlay) && MayBecome(resource, overlay, doc)
    ensures Emits(resource, overlay, ops) && ApplyAll(resource, ops) == Some(doc)
    decreases overlay, 3
  {
    if !SameType(resource, overlay) {
      ops := [Op(Replace, [], doc)];
      ApplyOne(resource, ops[0]);
    } else if overlay.Obj? {
      ops := ReachedMap(resource, overlay, doc);
    } else if overlay.Arr? {
      if resource.items == [] {
        ops := [Op(Add, [], doc)];
        ApplyOne(resource, ops[0]);
      } else {
        ops := ReachedArray(resource, overlay, doc);
      }
    } else {
      ops := [Op(Replace, [], overlay)];
      ApplyOne(resource, ops[0]);
    }
  }

  /** The overlay decides about this member: it is new, or a plain key names it. */
  ghost predicate Decided(resource: Json, overlay: Json, name: string)
    requires resource.Obj? && overlay.Obj?
  {
    if name in resource.fields then name in overlay.fields && IsPlain(name) else name in AllNames(overlay)
  }

  /** The key that is to have the last word about it. */
  ghost function Chosen(resource: Json, overlay: Json, name: string, value: Json): (key: string)
    requires resource.Obj? && overlay.Obj? && Decided(resource, overlay, name)
    requires MayBecomeAt(resource, overlay, name, value)
    ensures key in overlay.fields && !IsConditionAnchor(key) && RemoveAnchor(key) == name
    ensures if name in resource.fields then key == name else Strips(overlay.fields[key], value)
  {
    if name in resource.fields then name else var k :| MayInsert(overlay, k, name, value); k
  }

  ghost predicate Becomes(resource: Json, overlay: Json, doc: Json) {
    resource.Obj? && overlay.Obj? && doc.Obj? && MayBecome(resource, overlay, doc)
  }

  ghost predicate IsChosen(resource: Json, overlay: Json, doc: Json, key: string)
    requires Becomes(resource, overlay, doc)
  {
    && key in overlay.fields && !IsConditionAnchor(key)
    && Decided(resource, overlay, RemoveAnchor(key))
    && assert RemoveAnchor(key) in doc.fields by {
         assert RemoveAnchor(key) in resource.fields.Keys + AllNames(overlay);
       }
       Chosen(resource, overlay, RemoveAnchor(key), doc.fields[RemoveAnchor(key)]) == key
  }

  /** On the way from the resource to `doc`: the members in `done` are final, the other old ones
      untouched. */
  ghost predicate Between(resource: Json, doc: Json, done: set<string>, now: Json) {
    && resource.Obj? && doc.Obj? && now.Obj?
    && resource.fields.Keys <= now.fields.Keys <= doc.fields.Keys
    && (forall name | name in done :: name in now.fields && name in doc.fields && now.fields[name] == doc.fields[name])
    && (forall name | name in resource.fields && name !in done :: now.fields[name] == resource.fields[name])
  }

  /** First the keys that will be overwritten or do nothing. */
  lemma {:induction false} Overwritten(resource: Json, overlay: Json, doc: Json, keys: set<string>)
    returns (ops: seq<Op>, now: Json)
    requires PlainKeys(overlay) && Becomes(resource, overlay, doc) && !Fails(resource, overlay)
    requires keys <= overlay.fields.Keys && forall k | k in keys :: !IsChosen(resource, overlay, doc, k)
    ensures EmitsKeys(resource, overlay, keys, ops) && ApplyAll(resource, ops) == Some(now)
    ensures Between(resource, doc, {}, now)
    decreases |keys|
  {
    if keys == {} {
      ops, now := [], resource;
    } else {
      var k :| k in keys;
      var before, sofar := Overwritten(resource, overlay, doc, keys - {k});
      var last;
      last, now := OverwrittenKey(resource, overlay, doc, k, sofar);
      ops := before + last;
      KeyJoined(resource, overlay, keys, k, before, last, sofar, now);
    }
  }

  lemma OverwrittenKey(resource: Json, overlay: Json, doc: Json, k: string, sofar: Json)
    returns (ops: seq<Op>, now: Json)
    requires PlainKeys(overlay) && Becomes(resource, overlay, doc) && !Fails(resource, overlay)
    requires k in overlay.fields && !IsChosen(resource, overlay, doc, k)
    requires Between(resource, doc, {}, sofar)
    ensures EmitsKey(resource, overlay, k, ops) && ApplyAll(sofar, ops) == Some(now)
    ensures Between(resource, doc, {}, now)
  {
    var name := RemoveAnchor(k);
    PlainKeyOf(overlay, k);
    if IsConditionAnchor(k) || name in resource.fields {
      ops, now := [], sofar;
    } else {
      assert !FailsKey(resource, overlay, k);
      assert name in AllNames(overlay);
      StripIsOne(overlay.fields[k]);
      ops := [Op(Add, [name], Strip(overlay.fields[k]))];
      now := Obj(sofar.fields[name := Strip(overlay.fields[k])]);
      ApplyOne(sofar, ops[0]);
    }
  }

  ghost function ChosenNames(resource: Json, overlay: Json, doc: Json, keys: set<string>): set<string>
    requires Becomes(resource, overlay, doc)
  {
    set k | k in keys && IsChosen(resource, overlay, doc, k) :: RemoveAnchor(k)
  }

  /** Then the chosen ones. */
  lemma {:induction false} ChosenLast(resource: Json, overlay: Json, doc: Json, keys: set<string>)
    returns (ops: seq<Op>, now: Json)
    requires PlainKeys(overlay) && Lone(overlay) && Ordered(resource, overlay)
    requires Becomes(resource, overlay, doc) && !Fails(resource, overlay) && keys <= overlay.fields.Keys
    ensures EmitsKeys(resource, overlay, keys, ops) && ApplyAll(resource, ops) == Some(now)
    ensures Between(resource, doc, ChosenNames(resource, overlay, doc, keys), now)
    decreases overlay, 1, |keys|
  {
    if k :| k in keys && IsChosen(resource, overlay, doc, k) {
      var before, sofar := ChosenLast(resource, overlay, doc, keys - {k});
      OtherNames(resource, overlay, doc, keys, k);
      var last;
      last, now := ChosenKey(resource, overlay, doc, ChosenNames(resource, overlay, doc, keys - {k}), k, sofar);
      ops := before + last;
      KeyJoined(resource, overlay, keys, k, before, last, sofar, now);
    } else {
      ops, now := Overwritten(resource, overlay, doc, keys);
      assert ChosenNames(resource, overlay, doc, keys) == {};
    }
  }

  lemma KeyJoined(resource: Json, overlay: Json, keys: set<string>, k: string, before: seq<Op>, last: seq<Op>,
                  sofar: Json, now: Json)
    requires resource.Obj? && overlay.Obj? && keys <= overlay.fields.Keys && k in keys
    requires EmitsKeys(resource, overlay, keys - {k}, before) && ApplyAll(resource, before) == Some(sofar)
    requires EmitsKey(resource, overlay, k, last) && ApplyAll(sofar, last) == Some(now)
    ensures EmitsKeys(resource, overlay, keys, before + last) && ApplyAll(resource, before + last) == Some(now)
  {
    ApplyConcat(resource, before, last);
    assert Joined(before + last, before, last);
  }

  lemma OtherNames(resource: Json, overlay: Json, doc: Json, keys: set<string>, k: string)
    requires Becomes(resource, overlay, doc) && k in keys && IsChosen(resource, overlay, doc, k)
    ensures RemoveAnchor(k) !in ChosenNames(resource, overlay, doc, keys - {k})
    ensures ChosenNames(resource, overlay, doc, keys)
            == ChosenNames(resource, overlay, doc, keys - {k}) + {RemoveAnchor(k)}
  {
  }

  lemma {:induction false} ChosenKey(resource: Json, overlay: Json, doc: Json, done: set<string>, k: string,
                                     sofar: Json)
    returns (ops: seq<Op>, now: Json)
    requires PlainKeys(overlay) && Lone(overlay) && Ordered(resource, overlay)
    requires Becomes(resource, overlay, doc) && !Fails(resource, overlay)
    requires IsChosen(resource, overlay, doc, k) && RemoveAnchor(k) !in done && Between(resource, doc, done, sofar)
    ensures EmitsKey(resource, overlay, k, ops) && ApplyAll(sofar, ops) == Some(now)
    ensures Between(resource, doc, done + {RemoveAnchor(k)}, now)
    decreases overlay, 0
  {
    var name := RemoveAnchor(k);
    assert name in resource.fields.Keys + AllNames(overlay);
    var value := doc.fields[name];
    assert MayBecomeAt(resource, overlay, name, value) && !FailsKey(resource, overlay, k);
    now := Obj(sofar.fields[name := value]);
    if name in resource.fields {
      assert OrderedKey(resource, overlay, k);
      var inner := Reached(resource.fields[name], overlay.fields[k], value);
      ops := Under(name, inner);
      EmittedShape(resource.fields[name], overlay.fields[k], inner);
      Descend(sofar, name, inner);
    } else {
      ops := [Op(Add, [name], value)];
      ApplyOne(sofar, ops[0]);
    }
  }

  lemma {:induction false} ReachedMap(resource: Json, overlay: Json, doc: Json) returns (ops: seq<Op>)
    requires PlainKeys(overlay) && Lone(overlay) && Ordered(resource, overlay)
    requires !Fails(resource, overlay) && Becomes(resource, overlay, doc)
    ensures Emits(resource, overlay, ops) && ApplyAll(resource, ops) == Some(doc)
    decreases overlay, 2
  {
    var now;
    ops, now := ChosenLast(resource, overlay, doc, overlay.fields.Keys);
    AllDecided(resource, overlay, doc, now);
  }

  lemma AllDecided(resource: Json, overlay: Json, doc: Json, now: Json)
    requires PlainKeys(overlay) && Becomes(resource, overlay, doc)
    requires Between(resource, doc, ChosenNames(resource, overlay, doc, overlay.fields.Keys), now)
    ensures now == doc
  {
    var chosen := ChosenNames(resource, overlay, doc, overlay.fields.Keys);
    forall name | name in doc.fields ensures name in now.fields && now.fields[name] == doc.fields[name] {
      assert MayBecomeAt(resource, overlay, name, doc.fields[name]);
      if Decided(resource, overlay, name) {
        var k := Chosen(resource, overlay, name, doc.fields[name]);
        assert IsChosen(resource, overlay, doc, k);
        assert name in chosen;
      } else {
        assert name in resource.fields && name !in chosen;
      }
    }
    assert now.fields == doc.fields;
  }

  lemma {:induction false} NoElementFails(resource: Json, overlay: Json, n: nat, i: nat)
    requires resource.Arr? && overlay.Arr? && i < n <= |overlay.items| && !FailsElements(resource, overlay, n)
    ensures !FailsElement(resource, overlay, i)
  {
    if i < n - 1 {
      NoElementFails(resource, overlay, n - 1, i);
    }
  }

  /** The first `n` elements are plain, and strip to what `doc` has in their places. */
  ghost predicate PlainsFit(resource: Json, overlay: Json, doc: Json, n: nat) {
    && resource.Arr? && overlay.Arr? && doc.Arr?
    && n <= |overlay.items| && |resource.items| + n <= |doc.items| && !FailsElements(resource, overlay, n)
    && forall i | 0 <= i < n :: !Anchored(overlay, i) && Strips(overlay.items[i], doc.items[|resource.items| + i])
  }

  lemma LastPlainFits(resource: Json, overlay: Json, doc: Json, n: nat) returns (last: seq<Op>)
    requires n > 0 && PlainsFit(resource, overlay, doc, n)
    ensures PlainsFit(resource, overlay, doc, n - 1) && EmitsElement(resource, overlay, n - 1, last)
    ensures var index := |resource.items| + n - 1; last == [Op(Add, [Itoa(index)], doc.items[index])]
  {
    var index := |resource.items| + n - 1;
    last := [Op(Add, [Itoa(index)], doc.items[index])];
    assert !FailsElement(resource, overlay, n - 1);
    assert EmitsSubtree(overlay.items[n - 1], Add, [Itoa(index)], last);
  }

  lemma AddedAtEnd(items: seq<Json>, doc: seq<Json>, from: nat, index: nat)
    requires |items| == from <= index < |doc|
    ensures ApplyAll(Arr(items + doc[from..index]), [Op(Add, [Itoa(index)], doc[index])])
            == Some(Arr(items + doc[from..index + 1]))
  {
    var sofar := items + doc[from..index];
    IndexRoundTrip(index);
    ApplyOne(Arr(sofar), Op(Add, [Itoa(index)], doc[index]));
    assert sofar[..index] + [doc[index]] + sofar[index..] == items + doc[from..index + 1];
  }

  /** The first `n` elements are plain and have been appended. */
  lemma {:induction false} Appended(resource: Json, overlay: Json, doc: Json, n: nat) returns (ops: seq<Op>)
    requires PlainsFit(resource, overlay, doc, n)
    ensures EmitsElements(resource, overlay, n, ops)
    ensures ApplyAll(resource, ops) == Some(Arr(resource.items + doc.items[|resource.items|..|resource.items| + n]))
  {
    var len := |resource.items|;
    if n == 0 {
      ops := [];
      assert resource.items + doc.items[len..len] == resource.items;
    } else {
      var last := LastPlainFits(resource, overlay, doc, n);
      var before := Appended(resource, overlay, doc, n - 1);
      ops := before + last;
      ApplyConcat(resource, before, last);
      AddedAtEnd(resource.items, doc.items, len, len + n - 1);
      assert Joined(ops, before, last);
    }
  }

  /** The first `n` elements of `items` have become those of `doc`. */
  function Turned(items: seq<Json>, doc: seq<Json>, n: nat): seq<Json>
    requires n <= |items| == |doc|
  {
    doc[..n] + items[n..]
  }

  /** Each of the first `n` elements is still as it was, and may become that of `doc`. */
  ghost predicate EachReady(resource: Json, value: Json, doc: seq<Json>, n: nat, items: seq<Json>)
    requires resource.Arr? && n <= |resource.items| <= |items| == |doc|
  {
    forall j | 0 <= j < n ::
      && items[j] == resource.items[j] && MayBecome(resource.items[j], value, doc[j])
      && Ordered(resource.items[j], value) && !Fails(resource.items[j], value)
  }

  lemma {:induction false} EachReached(resource: Json, overlay: Json, doc: seq<Json>, i: nat, n: nat, items: seq<Json>)
    returns (ops: seq<Op>)
    requires resource.Arr? && overlay.Arr? && i < |overlay.items| && n <= |resource.items| <= |items| == |doc|
    requires PlainKeys(overlay) && Lone(overlay) && overlay.items[i].Obj?
    requires EachReady(resource, overlay.items[i], doc, n, items)
    ensures EmitsEach(resource, overlay, i, n, ops)
    ensures ApplyAll(Arr(items), ops) == Some(Arr(Turned(items, doc, n)))
    decreases overlay, 1, n
  {
    if n == 0 {
      ops := [];
      assert Turned(items, doc, 0) == items;
    } else {
      LastReady(resource, overlay.items[i], doc, n, items);
      var before := EachReached(resource, overlay, doc, i, n - 1, items);
      var inner := Reached(resource.items[n - 1], overlay.items[i], doc[n - 1]);
      ops := before + Under(Itoa(n - 1), inner);
      OneMoreTurned(resource, overlay, doc, i, n, items, before, inner);
      OneMoreEach(resource, overlay, i, n, before, inner);
    }
  }

  lemma LastReady(resource: Json, value: Json, doc: seq<Json>, n: nat, items: seq<Json>)
    requires resource.Arr? && 0 < n <= |resource.items| <= |items| == |doc| && EachReady(resource, value, doc, n, items)
    ensures EachReady(resource, value, doc, n - 1, items)
    ensures items[n - 1] == resource.items[n - 1] && MayBecome(resource.items[n - 1], value, doc[n - 1])
    ensures Ordered(resource.items[n - 1], value) && !Fails(resource.items[n - 1], value)
  {
  }

  lemma OneMoreTurned(resource: Json, overlay: Json, doc: seq<Json>, i: nat, n: nat, items: seq<Json>,
                      before: seq<Op>, inner: seq<Op>)
    requires resource.Arr? && overlay.Arr? && i < |overlay.items| && 0 < n <= |resource.items| <= |items| == |doc|
    requires items[n - 1] == resource.items[n - 1] && overlay.items[i].Obj?
    requires ApplyAll(Arr(items), before) == Some(Arr(Turned(items, doc, n - 1)))
    requires Emits(resource.items[n - 1], overlay.items[i], inner)
    requires ApplyAll(resource.items[n - 1], inner) == Some(doc[n - 1])
    ensures ApplyAll(Arr(items), before + Under(Itoa(n - 1), inner)) == Some(Arr(Turned(items, doc, n)))
  {
    ApplyConcat(Arr(items), before, Under(Itoa(n - 1), inner));
    OneTurned(resource, overlay, doc, i, n, items, inner);
  }

  lemma OneMoreEach(resource: Json, overlay: Json, i: nat, n: nat, before: seq<Op>, inner: seq<Op>)
    requires resource.Arr? && overlay.Arr? && i < |overlay.items| && 0 < n <= |resource.items|
    requires EmitsEach(resource, overlay, i, n - 1, before) && Emits(resource.items[n - 1], overlay.items[i], inner)
    ensures EmitsEach(resource, overlay, i, n, before + Under(Itoa(n - 1), inner))
  {
    var last := Under(Itoa(n - 1), inner);
    assert EmitsBelow(resource.items[n - 1], overlay.items[i], Itoa(n - 1), last);
    assert Joined(before + last, before, last);
  }

  lemma OneTurned(resource: Json, overlay: Json, doc: seq<Json>, i: nat, n: nat, items: seq<Json>, inner: seq<Op>)
    requires resource.Arr? && overlay.Arr? && i < |overlay.items| && 0 < n <= |resource.items| <= |items| == |doc|
    requires items[n - 1] == resource.items[n - 1] && overlay.items[i].Obj?
    requires Emits(resource.items[n - 1], overlay.items[i], inner)
    requires ApplyAll(resource.items[n - 1], inner) == Some(doc[n - 1])
    ensures ApplyAll(Arr(Turned(items, doc, n - 1)), Under(Itoa(n - 1), inner)) == Some(Arr(Turned(items, doc, n)))
  {
    var before := Arr(Turned(items, doc, n - 1));
    IndexRoundTrip(n - 1);
    EmittedShape(resource.items[n - 1], overlay.items[i], inner);
    Descend(before, Itoa(n - 1), inner);
    assert before.items[n - 1 := doc[n - 1]] == Turned(items, doc, n);
  }

  lemma {:induction false} ReachedArray(resource: Json, overlay: Json, doc: Json) returns (ops: seq<Op>)
    requires PlainKeys(overlay) && Lone(overlay) && Ordered(resource, overlay)
    requires resource.Arr? && overlay.Arr? && resource.items != []
    requires !Fails(resource, overlay) && MayBecome(resource, overlay, doc)
    ensures Emits(resource, overlay, ops) && ApplyAll(resource, ops) == Some(doc)
    decreases overlay, 2
  {
    var n := |overlay.items|;
    PlainItemsCounted(overlay, n);
    if Anchored(overlay, n - 1) {
      OnlyLast(overlay);
      PlainItemsCounted(overlay, n - 1);
      ops := LastAnchored(resource, overlay, doc);
    } else {
      assert forall i | 0 <= i < n :: !Anchored(overlay, i);
      ops := AllPlain(resource, overlay, doc);
    }
  }

  lemma AllPlain(resource: Json, overlay: Json, doc: Json) returns (ops: seq<Op>)
    requires resource.Arr? && overlay.Arr? && resource.items != [] && !Fails(resource, overlay)
    requires MayBecome(resource, overlay, doc) && PlainCount(overlay, |overlay.items|) == |overlay.items|
    requires forall i | 0 <= i < |overlay.items| :: !Anchored(overlay, i)
    ensures Emits(resource, overlay, ops) && ApplyAll(resource, ops) == Some(doc)
  {
    var n, len := |overlay.items|, |resource.items|;
    ops := Appended(resource, overlay, doc, n);
    forall j | 0 <= j < len ensures doc.items[j] == resource.items[j] {
      assert MayBecomeItem(resource.items[j], overlay, doc.items[j]);
    }
    assert resource.items + doc.items[len..len + n] == doc.items;
  }

  lemma {:induction false} LastAnchored(resource: Json, overlay: Json, doc: Json) returns (ops: seq<Op>)
    requires PlainKeys(overlay) && Lone(overlay) && Ordered(resource, overlay)
    requires resource.Arr? && overlay.Arr? && resource.items != [] && overlay.items != []
    requires !Fails(resource, overlay) && MayBecome(resource, overlay, doc)
    requires Anchored(overlay, |overlay.items| - 1)
    requires forall i | 0 <= i < |overlay.items| - 1 :: !Anchored(overlay, i)
    requires PlainCount(overlay, |overlay.items|) == |overlay.items| - 1
    ensures Emits(resource, overlay, ops) && ApplyAll(resource, ops) == Some(doc)
    decreases overlay, 1, |resource.items| + 2
  {
    var n, len := |overlay.items|, |resource.items|;
    PlainsBecome(resource, overlay, doc);
    var items := resource.items + doc.items[len..len + n - 1];
    ItemsBecome(resource, overlay, doc, items);
    ops := BothReached(resource, overlay, doc, items);
  }

  lemma PlainsBecome(resource: Json, overlay: Json, doc: Json)
    requires resource.Arr? && overlay.Arr? && resource.items != [] && overlay.items != []
    requires !Fails(resource, overlay) && MayBecome(resource, overlay, doc)
    requires forall i | 0 <= i < |overlay.items| - 1 :: !Anchored(overlay, i)
    requires PlainCount(overlay, |overlay.items|) == |overlay.items| - 1
    ensures PlainsFit(resource, overlay, doc, |overlay.items| - 1)
    ensures |doc.items| == |resource.items| + |overlay.items| - 1
  {
    PlainsStrip(resource, overlay, doc);
    assert !FailsElements(resource, overlay, |overlay.items| - 1);
  }

  lemma PlainsStrip(resource: Json, overlay: Json, doc: Json)
    requires resource.Arr? && overlay.Arr? && resource.items != [] && MayBecome(resource, overlay, doc)
    ensures doc.Arr? && |doc.items| == |resource.items| + PlainCount(overlay, |overlay.items|)
    ensures forall i | 0 <= i < PlainCount(overlay, |overlay.items|) && i < |overlay.items| && !Anchored(overlay, i) ::
              Strips(overlay.items[i], doc.items[|resource.items| + i])
  {
  }

  lemma {:induction false} BothReached(resource: Json, overlay: Json, doc: Json, items: seq<Json>)
    returns (ops: seq<Op>)
    requires PlainKeys(overlay) && Lone(overlay)
    requires resource.Arr? && overlay.Arr? && resource.items != [] && overlay.items != [] && !Fails(resource, overlay)
    requires Anchored(overlay, |overlay.items| - 1) && overlay.items[|overlay.items| - 1].Obj?
    requires PlainsFit(resource, overlay, doc, |overlay.items| - 1)
    requires |items| == |doc.items| == |resource.items| + |overlay.items| - 1
    requires items == resource.items + doc.items[|resource.items|..|items|]
    requires EachReady(resource, overlay.items[|overlay.items| - 1], doc.items, |resource.items|, items)
    ensures Emits(resource, overlay, ops) && ApplyAll(resource, ops) == Some(doc)
    decreases overlay, 1, |resource.items| + 1
  {
    var n := |overlay.items|;
    var before := PlainsAppended(resource, overlay, doc, items, n - 1);
    var last := EachReached(resource, overlay, doc.items, n - 1, |resource.items|, items);
    ops := before + last;
    BothJoined(resource, overlay, doc, items, before, last);
  }

  lemma PlainsAppended(resource: Json, overlay: Json, doc: Json, items: seq<Json>, n: nat) returns (ops: seq<Op>)
    requires PlainsFit(resource, overlay, doc, n)
    requires |items| == |doc.items| == |resource.items| + n
    requires items == resource.items + doc.items[|resource.items|..|items|]
    ensures EmitsElements(resource, overlay, n, ops) && ApplyAll(resource, ops) == Some(Arr(items))
  {
    ops := Appended(resource, overlay, doc, n);
  }

  lemma BothJoined(resource: Json, overlay: Json, doc: Json, items: seq<Json>, before: seq<Op>, last: seq<Op>)
    requires resource.Arr? && overlay.Arr? && resource.items != [] && overlay.items != [] && !Fails(resource, overlay)
    requires Anchored(overlay, |overlay.items| - 1) && overlay.items[|overlay.items| - 1].Obj?
    requires EmitsElements(resource, overlay, |overlay.items| - 1, before)
    requires EmitsEach(resource, overlay, |overlay.items| - 1, |resource.items|, last)
    requires doc.Arr? && |resource.items| <= |items| == |doc.items|
    requires items == resource.items + doc.items[|resource.items|..|items|]
    requires ApplyAll(resource, before) == Some(Arr(items))
    requires ApplyAll(Arr(items), last) == Some(Arr(Turned(items, doc.items, |resource.items|)))
    ensures Emits(resource, overlay, before + last) && ApplyAll(resource, before + last) == Some(doc)
  {
    ElementsJoined(resource, overlay, before, last);
    AllTurned(resource, doc, items, before, last);
  }

  lemma AllTurned(resource: Json, doc: Json, items: seq<Json>, before: seq<Op>, last: seq<Op>)
    requires resource.Arr? && doc.Arr? && |resource.items| <= |items| == |doc.items|
    requires items == resource.items + doc.items[|resource.items|..|items|]
    requires ApplyAll(resource, before) == Some(Arr(items))
    requires ApplyAll(Arr(items), last) == Some(Arr(Turned(items, doc.items, |resource.items|)))
    ensures ApplyAll(resource, before + last) == Some(doc)
  {
    ApplyConcat(resource, before, last);
    assert Turned(items, doc.items, |resource.items|) == doc.items;
  }

  lemma ItemsBecome(resource: Json, overlay: Json, doc: Json, items: seq<Json>)
    requires resource.Arr? && overlay.Arr? && resource.items != [] && overlay.items != []
    requires Ordered(resource, overlay) && !Fails(resource, overlay) && MayBecome(resource, overlay, doc)
    requires Anchored(overlay, |overlay.items| - 1)
    requires |resource.items| <= |items| == |doc.items| && items[..|resource.items|] == resource.items
    ensures overlay.items[|overlay.items| - 1].Obj?
    ensures EachReady(resource, overlay.items[|overlay.items| - 1], doc.items, |resource.items|, items)
  {
    var n := |overlay.items|;
    NoElementFails(resource, overlay, n, n - 1);
    assert OrderedElements(resource, overlay, n);
    forall j | 0 <= j < |resource.items|
      ensures items[j] == resource.items[j] && MayBecome(resource.items[j], overlay.items[n - 1], doc.items[j])
    {
      assert items[j] == items[..|resource.items|][j];
      assert MayBecomeItem(resource.items[j], overlay, doc.items[j]);
    }
  }

  lemma ElementsJoined(resource: Json, overlay: Json, before: seq<Op>, last: seq<Op>)
    requires resource.Arr? && overlay.Arr? && resource.items != [] && overlay.items != [] && !Fails(resource, overlay)
    requires EmitsElements(resource, overlay, |overlay.items| - 1, before)
    requires Anchored(overlay, |overlay.items| - 1) && overlay.items[|overlay.items| - 1].Obj?
    requires EmitsEach(resource, overlay, |overlay.items| - 1, |resource.items|, last)
    ensures Emits(resource, overlay, before + last)
  {
    assert EmitsElement(resource, overlay, |overlay.items| - 1, last) && Joined(before + last, before, last);
  }

  lemma OnlyLast(overlay: Json)
    requires overlay.Arr? && Lone(overlay) && overlay.items != [] && Anchored(overlay, |overlay.items| - 1)
    ensures forall i | 0 <= i < |overlay.items| - 1 :: !Anchored(overlay, i)
  {
  }

  // ---------- The exact condition ----------

  /** The map order makes no difference exactly when there is one insert in every place. */
  lemma OrderDoesNotMatter(resource: Json, overlay: Json)
    requires PlainKeys(overlay) && Lone(overlay) && Ordered(resource, overlay) && !Fails(resource, overlay)
    ensures OneDocument(resource, overlay) <==> OneInsert(resource, overlay)
  {
    if OneInsert(resource, overlay) {
      OneInsertIsClear(resource, overlay);
      forall ops, ops' | MayReturn(resource, overlay, ops) && MayReturn(resource, overlay, ops')
        ensures ApplyAll(resource, ops) == ApplyAll(resource, ops')
      {
        PatchesPerformMerge(resource, overlay, ops);
        PatchesPerformMerge(resource, overlay, ops');
      }
    } else {
      MergeIsOne(resource, overlay);
      var doc := AnotherDocument(resource, overlay);
      var ops := Reached(resource, overlay, Merge(resource, overlay));
      var ops' := Reached(resource, overlay, doc);
      assert MayReturn(resource, overlay, ops) && MayReturn(resource, overlay, ops');
    }
  }

  lemma {:induction false} OneInsertIsClear(resource: Json, overlay: Json)
    requires PlainKeys(overlay) && Lone(overlay) && OneInsert(resource, overlay)
    ensures Clear(resource, overlay)
    decreases overlay
  {
    if SameType(resource, overlay) {
      match overlay
      case Obj(fields) =>
        forall k | k in fields ensures ClearKey(resource, overlay, k) {
          assert OneInsertKey(resource, overlay, k);
          if !IsConditionAnchor(k) && !IsAddingAnchor(k) && RemoveAnchor(k) in resource.fields {
            OneInsertIsClear(resource.fields[RemoveAnchor(k)], fields[k]);
          }
        }
        PlainNamesAreDistinct(resource, overlay);
      case Arr(items) =>
        forall i | 0 <= i < |items| && resource.items != [] ensures ClearElement(resource, overlay, i) {
          assert OneInsertElement(resource, overlay, i);
          if Anchored(overlay, i) {
            forall j | 0 <= j < |resource.items| ensures Clear(resource.items[j], items[i]) {
              OneInsertIsClear(resource.items[j], items[i]);
            }
          }
        }
      case _ =>
    }
  }

  /** Two plain keys have two names. */
  lemma PlainNamesAreDistinct(resource: Json, overlay: Json)
    requires PlainKeys(overlay) && resource.Obj? && overlay.Obj? && SameInserts(resource, overlay)
    ensures DistinctNames(resource, overlay)
  {
    forall k | k in overlay.fields ensures !IsConditionAnchor(k) && !IsAddingAnchor(k) ==> RemoveAnchor(k) == k {
      PlainKeyOf(overlay, k);
    }
  }
}
