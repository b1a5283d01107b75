/** What overlay mutation means: the patch lists the generator may emit (one for every
    iteration order of the maps involved), the recursive merge they are meant to perform,
    and the conditions under which they perform it. */
module OverlaySpec {
  import opened Json
  import opened JsonPatch
  import opened Anchors

  /** `hasOnlyAnchors`: nothing in the subtree can be inserted. */
  predicate HasOnlyAnchors(overlay: Json) {
    match overlay
    case Obj(fields) =>
      || (forall k | k in fields :: IsConditionAnchor(k))
      || (forall k | k in fields :: HasOnlyAnchors(fields[k]))
    case Arr(items) => forall i | 0 <= i < |items| :: HasOnlyAnchors(items[i])
    case _ => false
  }

  /** `hasNestedAnchors`: a condition anchor occurs somewhere in the subtree. */
  predicate HasNestedAnchors(overlay: Json) {
    match overlay
    case Obj(fields) =>
      || (exists k | k in fields :: IsConditionAnchor(k))
      || (exists k | k in fields :: HasNestedAnchors(fields[k]))
    case Arr(items) => exists i | 0 <= i < |items| :: HasNestedAnchors(items[i])
    case _ => false
  }

  // ---------- Stripping the anchors of an inserted subtree ----------

  ghost function RawKeys(overlay: Json): set<string>
    requires overlay.Obj?
  {
    set k | k in overlay.fields :: RawKey(k)
  }

  ghost function KeyWithRaw(overlay: Json, raw: string): (k: string)
    requires overlay.Obj? && raw in RawKeys(overlay)
    ensures k in overlay.fields && RawKey(k) == raw
  {
    var k :| k in overlay.fields && RawKey(k) == raw; k
  }

  /** The subtree with every key stripped. */
  ghost function Strip(overlay: Json): Json {
    match overlay
    case Obj(fields) => Obj(map raw | raw in RawKeys(overlay) :: Strip(fields[KeyWithRaw(overlay, raw)]))
    case Arr(items) => Arr(seq(|items|, i requires 0 <= i < |items| => Strip(items[i])))
    case _ => overlay
  }

  /** `value` is what stripping may produce when two keys of one map strip to the same name
      and the iteration order decides which of them survives. */
  ghost predicate Strips(overlay: Json, value: Json) {
    match overlay
    case Obj(fields) =>
      && value.Obj?
      && value.fields.Keys == RawKeys(overlay)
      && forall raw | raw in value.fields ::
           exists k :: k in fields && RawKey(k) == raw && Strips(fields[k], value.fields[raw])
    case Arr(items) =>
      && value.Arr?
      && |value.items| == |items|
      && forall i | 0 <= i < |items| :: Strips(items[i], value.items[i])
    case _ => value == overlay
  }

  /** Where two keys of a map strip to the same name, what is below them strips to the same
      value. */
  ghost predicate StripClear(overlay: Json) {
    match overlay
    case Obj(fields) =>
      && (forall k, k' | k in fields && k' in fields && RawKey(k) == RawKey(k') ::
          Strip(fields[k]) == Strip(fields[k']))
      && forall k | k in fields :: StripClear(fields[k])
    case Arr(items) => forall i | 0 <= i < |items| :: StripClear(items[i])
    case _ => true
  }

  /** Stripping has one result, whatever the map order, exactly for those subtrees. */
  lemma {:induction false} StripUnique(overlay: Json)
    ensures (forall value :: MayStripTo(overlay, value) <==> value == Strip(overlay)) <==> StripClear(overlay)
  {
    StripIsOne(overlay);
    if StripClear(overlay) {
      forall value | MayStripTo(overlay, value) ensures value == Strip(overlay) {
        ClearStrips(overlay, value);
      }
    } else {
      var value := AnotherStrip(overlay);
      assert MayStripTo(overlay, value);
    }
  }

  ghost predicate MayStripTo(overlay: Json, value: Json) {
    Strips(overlay, value)
  }

  lemma {:induction false} ClearStrips(overlay: Json, value: Json)
    requires StripClear(overlay) && Strips(overlay, value)
    ensures value == Strip(overlay)
  {
    match overlay
    case Obj(fields) =>
      forall raw | raw in RawKeys(overlay)
        ensures value.fields[raw] == Strip(fields[KeyWithRaw(overlay, raw)])
      {
        var k :| k in fields && RawKey(k) == raw && Strips(fields[k], value.fields[raw]);
        ClearStrips(fields[k], value.fields[raw]);
      }
      assert value.fields == (map raw | raw in RawKeys(overlay) :: Strip(fields[KeyWithRaw(overlay, raw)]));
    case Arr(items) =>
      forall i | 0 <= i < |items| ensures value.items[i] == Strip(items[i]) {
        ClearStrips(items[i], value.items[i]);
      }
      assert value.items == Strip(overlay).items;
    case _ =>
  }

  lemma {:induction false} StripIsOne(overlay: Json)
    ensures Strips(overlay, Strip(overlay))
  {
    match overlay
    case Obj(fields) =>
      forall raw | raw in RawKeys(overlay)
        ensures exists k :: k in fields && RawKey(k) == raw && Strips(fields[k], Strip(overlay).fields[raw])
      {
        StripIsOne(fields[KeyWithRaw(overlay, raw)]);
      }
    case Arr(items) =>
      forall i | 0 <= i < |items| ensures Strips(items[i], Strip(overlay).items[i]) {
        StripIsOne(items[i]);
      }
    case _ =>
  }

  /** Any key may be the one that survives, with any value it may strip to. */
  lemma StripWith(overlay: Json, key: string, value: Json)
    requires overlay.Obj? && key in overlay.fields && Strips(overlay.fields[key], value)
    ensures Strips(overlay, Obj(Strip(overlay).fields[RawKey(key) := value]))
  {
    var other := Obj(Strip(overlay).fields[RawKey(key) := value]);
    assert RawKey(key) in RawKeys(overlay);
    assert other.fields.Keys == RawKeys(overlay);
    forall raw | raw in other.fields
      ensures exists k :: k in overlay.fields && RawKey(k) == raw && Strips(overlay.fields[k], other.fields[raw])
    {
      if raw != RawKey(key) {
        StripIsOne(overlay.fields[KeyWithRaw(overlay, raw)]);
      }
    }
  }

  lemma {:induction false} AnotherStrip(overlay: Json) returns (value: Json)
    requires !StripClear(overlay)
    ensures Strips(overlay, value) && value != Strip(overlay)
  {
    match overlay
    case Obj(fields) =>
      var key, other;
      if k, k' :| k in fields && k' in fields && RawKey(k) == RawKey(k') && Strip(fields[k]) != Strip(fields[k']) {
        var first := KeyWithRaw(overlay, RawKey(k));
        key := if Strip(fields[k]) != Strip(fields[first]) then k else k';
        other := Strip(fields[key]);
        StripIsOne(fields[key]);
      } else {
        var k :| k in fields && !StripClear(fields[k]);
        key := k;
        other := AnotherStrip(fields[k]);
      }
      assert RawKey(key) in RawKeys(overlay);
      assert other != Strip(fields[KeyWithRaw(overlay, RawKey(key))]);
      StripWith(overlay, key, other);
      value := Obj(Strip(overlay).fields[RawKey(key) := other]);
      assert value.fields[RawKey(key)] != Strip(overlay).fields[RawKey(key)];
    case Arr(items) =>
      var i :| 0 <= i < |items| && !StripClear(items[i]);
      var other := AnotherStrip(items[i]);
      forall j | 0 <= j < |items| ensures Strips(items[j], Strip(items[j])) {
        StripIsOne(items[j]);
      }
      value := Arr(Strip(overlay).items[i := other]);
      assert value.items[i] != Strip(overlay).items[i];
    case _ =>
  }

  // ---------- The patches the generator may emit ----------

  /** The overlay element is merged into every resource element instead of being inserted. */
  predicate Anchored(overlay: Json, i: nat)
    requires overlay.Arr? && i < |overlay.items|
  {
    overlay.items[0].Obj? && HasNestedAnchors(overlay.items[i])
  }

  /** `ops`, with paths relative to the position of `resource`, is a patch list that
      `applyOverlay` returns for some iteration order of every map it ranges over. */
  ghost predicate Emits(resource: Json, overlay: Json, ops: seq<Op>)
    decreases overlay, 2, 0
  {
    if !SameType(resource, overlay) then
      EmitsSubtree(overlay, Replace, [], ops)
    else
      match overlay
      case Obj(fields) => EmitsKeys(resource, overlay, fields.Keys, ops)
      case Arr(items) =>
        && items != []
        && if resource.items == [] then
             EmitsSubtree(overlay, Add, [], ops)
           else
             SameType(resource.items[0], items[0]) && EmitsElements(resource, overlay, |items|, ops)
      case Null => false
      case _ => ops == [Op(Replace, [], overlay)]
  }

  /** `processSubtree`: one operation carrying the stripped subtree. */
  ghost predicate EmitsSubtree(overlay: Json, verb: Verb, path: seq<string>, ops: seq<Op>) {
    && !HasOnlyAnchors(overlay)
    && exists value :: Strips(overlay, value) && ops == [Op(verb, path, value)]
  }

  /** `ops` is `before` followed by `last`. */
  ghost predicate Joined(ops: seq<Op>, before: seq<Op>, last: seq<Op>) {
    ops == before + last
  }

  /** The keys of `keys` have been ranged over, in some order. */
  ghost predicate EmitsKeys(resource: Json, overlay: Json, keys: set<string>, ops: seq<Op>)
    requires resource.Obj? && overlay.Obj? && keys <= overlay.fields.Keys
    decreases overlay, 0, |keys|
  {
    if keys == {} then
      ops == []
    else
      exists k, before, last {:trigger k in keys, Joined(ops, before, last)} ::
        && k in keys
        && Joined(ops, before, last)
        && EmitsKeys(resource, overlay, keys - {k}, before)
        && EmitsKey(resource, overlay, k, last)
  }

  ghost predicate EmitsKey(resource: Json, overlay: Json, key: string, ops: seq<Op>)
    requires resource.Obj? && overlay.Obj? && key in overlay.fields
    decreases overlay, 0, 0
  {
    var name := RemoveAnchor(key);
    if IsConditionAnchor(key) then
      ops == []
    else if name !in resource.fields then
      EmitsSubtree(overlay.fields[key], Add, [name], ops)
    else if IsAddingAnchor(key) then
      ops == []
    else
      EmitsBelow(resource.fields[name], overlay.fields[key], name, ops)
  }

  /** The first `n` overlay elements have been ranged over. */
  ghost predicate EmitsElements(resource: Json, overlay: Json, n: nat, ops: seq<Op>)
    requires resource.Arr? && overlay.Arr? && n <= |overlay.items|
    decreases overlay, 1, n
  {
    if n == 0 then
      ops == []
    else
      exists before, last {:trigger Joined(ops, before, last)} ::
        && Joined(ops, before, last)
        && EmitsElements(resource, overlay, n - 1, before)
        && EmitsElement(resource, overlay, n - 1, last)
  }

  ghost predicate EmitsElement(resource: Json, overlay: Json, i: nat, ops: seq<Op>)
    requires resource.Arr? && overlay.Arr? && i < |overlay.items|
    decreases overlay, 0, |resource.items| + 1
  {
    && (overlay.items[0].Obj? ==> overlay.items[i].Obj?)
    && if Anchored(overlay, i) then
         EmitsEach(resource, overlay, i, |resource.items|, ops)
       else
         EmitsSubtree(overlay.items[i], Add, [Itoa(|resource.items| + i)], ops)
  }

  /** Overlay element `i` has been applied to the first `n` resource elements. */
  ghost predicate EmitsEach(resource: Json, overlay: Json, i: nat, n: nat, ops: seq<Op>)
    requires resource.Arr? && overlay.Arr? && i < |overlay.items| && n <= |resource.items|
    decreases overlay, 0, n
  {
    if n == 0 then
      ops == []
    else
      exists before, last {:trigger Joined(ops, before, last)} ::
        && Joined(ops, before, last)
        && EmitsEach(resource, overlay, i, n - 1, before)
        && EmitsBelow(resource.items[n - 1], overlay.items[i], Itoa(n - 1), last)
  }

  ghost predicate EmitsBelow(resource: Json, overlay: Json, token: string, ops: seq<Op>)
    decreases overlay, 3, 0
  {
    exists inner :: ops == Under(token, inner) && Emits(resource, overlay, inner)
  }

  // ---------- When generation fails ----------

  /** Some part of the overlay cannot be compiled against the resource: an insertion that
      strips to nothing, a null overlay leaf, or arrays that do not line up. */
  ghost predicate Fails(resource: Json, overlay: Json)
    decreases overlay, 2
  {
    if !SameType(resource, overlay) then
      HasOnlyAnchors(overlay)
    else
      match overlay
      case Obj(fields) => exists k | k in fields :: FailsKey(resource, overlay, k)
      case Arr(items) =>
        || items == []
        || if resource.items == [] then
             HasOnlyAnchors(overlay)
           else
             || !SameType(resource.items[0], items[0])
             || FailsElements(resource, overlay, |items|)
      case Null => true
      case _ => false
  }

  ghost predicate FailsKey(resource: Json, overlay: Json, key: string)
    requires resource.Obj? && overlay.Obj? && key in overlay.fields
    decreases overlay, 0
  {
    var name := RemoveAnchor(key);
    && !IsConditionAnchor(key)
    && if name in resource.fields then
         !IsAddingAnchor(key) && Fails(resource.fields[name], overlay.fields[key])
       else
         HasOnlyAnchors(overlay.fields[key])
  }

  /** One of the first `n` overlay elements fails. */
  ghost predicate FailsElements(resource: Json, overlay: Json, n: nat)
    requires resource.Arr? && overlay.Arr? && n <= |overlay.items|
    decreases overlay, 1, n
  {
    n > 0 && (FailsElements(resource, overlay, n - 1) || FailsElement(resource, overlay, n - 1))
  }

  ghost predicate FailsElement(resource: Json, overlay: Json, i: nat)
    requires resource.Arr? && overlay.Arr? && i < |overlay.items|
    decreases overlay, 0
  {
    || (overlay.items[0].Obj? && !overlay.items[i].Obj?)
    || if Anchored(overlay, i) then
         exists j | 0 <= j < |resource.items| :: Fails(resource.items[j], overlay.items[i])
       else
         HasOnlyAnchors(overlay.items[i])
  }

  /** The walk may get to an array of maps with an element that is no map, on which its type
      assertion panics. */
  ghost predicate MayPanic(resource: Json, overlay: Json)
    decreases overlay, 1
  {
    && SameType(resource, overlay)
    && match overlay
       case Obj(fields) => exists k | k in fields :: MayPanicKey(resource, overlay, k)
       case Arr(items) => resource.items != [] && exists i | 0 <= i < |items| :: MayPanicElement(resource, overlay, i)
       case _ => false
  }

  ghost predicate MayPanicKey(resource: Json, overlay: Json, key: string)
    requires resource.Obj? && overlay.Obj? && key in overlay.fields
    decreases overlay, 0
  {
    var name := RemoveAnchor(key);
    && !IsConditionAnchor(key) && !IsAddingAnchor(key) && name in resource.fields
    && MayPanic(resource.fields[name], overlay.fields[key])
  }

  ghost predicate MayPanicElement(resource: Json, overlay: Json, i: nat)
    requires resource.Arr? && overlay.Arr? && i < |overlay.items|
    decreases overlay, 0
  {
    && overlay.items[0].Obj?
    && (!overlay.items[i].Obj?
        || (Anchored(overlay, i) && exists j | 0 <= j < |resource.items| ::
            MayPanic(resource.items[j], overlay.items[i])))
  }

  // ---------- The recursive merge ----------

  ghost function Names(overlay: Json, keys: set<string>): set<string>
    requires overlay.Obj? && keys <= overlay.fields.Keys
  {
    set k | k in keys && !IsConditionAnchor(k) :: RemoveAnchor(k)
  }

  /** The key that decides about a member: a key that is no addition, if there is one. */
  ghost function KeyNamed(overlay: Json, keys: set<string>, name: string): (k: string)
    requires overlay.Obj? && keys <= overlay.fields.Keys && name in Names(overlay, keys)
    ensures k in keys && !IsConditionAnchor(k) && RemoveAnchor(k) == name
    ensures IsAddingAnchor(k) ==>
              forall k' | k' in keys && !IsConditionAnchor(k') && RemoveAnchor(k') == name :: IsAddingAnchor(k')
  {
    if k :| k in keys && !IsConditionAnchor(k) && !IsAddingAnchor(k) && RemoveAnchor(k) == name then k
    else var k :| k in keys && !IsConditionAnchor(k) && RemoveAnchor(k) == name; k
  }

  /** Objects are merged member by member under the stripped names; condition anchors take no
      part; members under "+()" are only added; arrays get the plain elements appended and the
      anchored elements merged into every element they already had; everything else is
      replaced. */
  ghost function Merge(resource: Json, overlay: Json): Json
    decreases overlay, 2, 0
  {
    if !SameType(resource, overlay) then
      Strip(overlay)
    else
      match overlay
      case Obj(fields) => Obj(MergedFields(resource, overlay, fields.Keys))
      case Arr(items) =>
        if resource.items == [] then Strip(overlay) else Arr(MergedItems(resource, overlay, |items|))
      case _ => overlay
  }

  /** The members after merging the overlay keys in `keys`. */
  ghost function MergedFields(resource: Json, overlay: Json, keys: set<string>): map<string, Json>
    requires resource.Obj? && overlay.Obj? && keys <= overlay.fields.Keys
    decreases overlay, 0, 1
  {
    map name | name in resource.fields.Keys + Names(overlay, keys) ::
      if name in Names(overlay, keys) then
        MergedMember(resource, overlay, KeyNamed(overlay, keys, name))
      else
        resource.fields[name]
  }

  ghost function MergedMember(resource: Json, overlay: Json, key: string): Json
    requires resource.Obj? && overlay.Obj? && key in overlay.fields
    decreases overlay, 0, 0
  {
    var name := RemoveAnchor(key);
    if name !in resource.fields then
      Strip(overlay.fields[key])
    else if IsAddingAnchor(key) then
      resource.fields[name]
    else
      Merge(resource.fields[name], overlay.fields[key])
  }

  /** The elements after merging the first `n` overlay elements. */
  ghost function MergedItems(resource: Json, overlay: Json, n: nat): seq<Json>
    requires resource.Arr? && overlay.Arr? && n <= |overlay.items|
    decreases overlay, 1, n
  {
    seq(|resource.items|, j requires 0 <= j < |resource.items| => MergedItem(resource.items[j], overlay, n))
    + PlainItems(overlay, n)
  }

  ghost function MergedItem(item: Json, overlay: Json, n: nat): Json
    requires overlay.Arr? && n <= |overlay.items|
    decreases overlay, 0, n
  {
    if n == 0 then
      item
    else
      var sofar := MergedItem(item, overlay, n - 1);
      if Anchored(overlay, n - 1) then Merge(sofar, overlay.items[n - 1]) else sofar
  }

  ghost function PlainItems(overlay: Json, n: nat): (plain: seq<Json>)
    requires overlay.Arr? && n <= |overlay.items|
    ensures |plain| <= n
    ensures |plain| == n <==> forall i | 0 <= i < n :: !Anchored(overlay, i)
  {
    if n == 0 then []
    else PlainItems(overlay, n - 1) + if Anchored(overlay, n - 1) then [] else [Strip(overlay.items[n - 1])]
  }

  // ---------- When the patches perform the merge ----------

  /** Wherever the merge goes, names are unambiguous and the anchored elements of an array name
      different members of the maps in it, so that no two parts of the overlay write different
      values to the same place. */
  ghost predicate Clear(resource: Json, overlay: Json)
    decreases overlay, 1
  {
    if !SameType(resource, overlay) then
      StripClear(overlay)
    else
      match overlay
      case Obj(fields) => DistinctNames(resource, overlay) && forall k | k in fields :: ClearKey(resource, overlay, k)
      case Arr(items) =>
        if resource.items == [] then
          StripClear(overlay)
        else
          && ((forall i, i' | 0 <= i < i' < |items| :: !(Anchored(overlay, i) && Anchored(overlay, i')))
              || (AllMaps(resource) && AnchoredApart(overlay)))
          && (forall i | 0 <= i < |items| :: ClearElement(resource, overlay, i))
      case _ => true
  }

  predicate AllMaps(resource: Json)
    requires resource.Arr?
  {
    forall j | 0 <= j < |resource.items| :: resource.items[j].Obj?
  }

  /** No two anchored elements name the same member. */
  ghost predicate AnchoredApart(overlay: Json)
    requires overlay.Arr?
  {
    && (forall i | 0 <= i < |overlay.items| && Anchored(overlay, i) :: overlay.items[i].Obj?)
    && (forall i, i' | 0 <= i < i' < |overlay.items| && Anchored(overlay, i) && Anchored(overlay, i') ::
          AllNames(overlay.items[i]) !! AllNames(overlay.items[i']))
  }

  ghost function AllNames(overlay: Json): set<string>
    requires overlay.Obj?
  {
    Names(overlay, overlay.fields.Keys)
  }

  /** Two keys with one name are the same key, or both insert the same value, or the member exists
      and one of them is an addition that leaves it alone. */
  ghost predicate DistinctNames(resource: Json, overlay: Json)
    requires resource.Obj? && overlay.Obj?
  {
    forall k, k' | k in overlay.fields && k' in overlay.fields && !IsConditionAnchor(k) && !IsConditionAnchor(k')
      && RemoveAnchor(k) == RemoveAnchor(k') ::
      || k == k'
      || if RemoveAnchor(k) in resource.fields then
           IsAddingAnchor(k) || IsAddingAnchor(k')
         else
           Strip(overlay.fields[k]) == Strip(overlay.fields[k'])
  }

  ghost predicate ClearKey(resource: Json, overlay: Json, key: string)
    requires resource.Obj? && overlay.Obj? && key in overlay.fields
    decreases overlay, 0
  {
    var name := RemoveAnchor(key);
    || IsConditionAnchor(key)
    || if name !in resource.fields then StripClear(overlay.fields[key])
       else IsAddingAnchor(key) || Clear(resource.fields[name], overlay.fields[key])
  }

  ghost predicate ClearElement(resource: Json, overlay: Json, i: nat)
    requires resource.Arr? && overlay.Arr? && i < |overlay.items|
    decreases overlay, 0
  {
    if Anchored(overlay, i) then
      forall j | 0 <= j < |resource.items| :: Clear(resource.items[j], overlay.items[i])
    else
      StripClear(overlay.items[i])
  }

  /** Wherever the merge goes, the plain elements of an array come before the anchored ones. */
  ghost predicate Ordered(resource: Json, overlay: Json)
    decreases overlay, 1
  {
    SameType(resource, overlay) ==>
      match overlay
      case Obj(fields) => forall k | k in fields :: OrderedKey(resource, overlay, k)
      case Arr(items) => resource.items != [] ==> OrderedElements(resource, overlay, |items|)
      case _ => true
  }

  ghost predicate OrderedKey(resource: Json, overlay: Json, key: string)
    requires resource.Obj? && overlay.Obj? && key in overlay.fields
    decreases overlay, 0
  {
    var name := RemoveAnchor(key);
    !IsConditionAnchor(key) && name in resource.fields && !IsAddingAnchor(key)
    ==> Ordered(resource.fields[name], overlay.fields[key])
  }

  ghost predicate OrderedElements(resource: Json, overlay: Json, n: nat)
    requires resource.Arr? && overlay.Arr? && n <= |overlay.items|
    decreases overlay, 0
  {
    && (forall i, i' | 0 <= i < i' < n && Anchored(overlay, i) :: Anchored(overlay, i'))
    && (forall i, j | 0 <= i < n && Anchored(overlay, i) && 0 <= j < |resource.items| ::
          Ordered(resource.items[j], overlay.items[i]))
  }
}
