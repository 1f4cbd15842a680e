/**
  `ConsoleAction`: an immutable description of when a console action fires.
  Each of its four fields is a list of OR groups combined with AND. `keys` and
  `withoutKeys` are logical keys (type `K`), matched against the keys pressed this
  frame; `modifiers` and `withoutModifiers` are physical keys (type `M`), matched
  against the keys held down. Both key types are abstract here.
 */
module ConsoleActions {
  import opened Outcomes

  /** One element of a tuple given to a builder: a key, an array of keys or a `Vec` of keys. */
  datatype GroupInput<T> =
    | OneKey(key: T)
    | KeyArray(keys: seq<T>)
    | KeyVec(keys: seq<T>)

  /**
    What the builders accept (Rust's `KeyInput` for logical keys and
    `ModifierInput` for physical keys): a single key, an array (one OR group),
    a `Vec<Vec<_>>` taken as it is, or a tuple of groups combined with AND.
   */
  datatype Input<T> =
    | SingleKey(key: T)
    | OrGroup(keys: seq<T>)
    | Groups(groups: seq<seq<T>>)
    | AndTuple(items: seq<GroupInput<T>>)

  /** Tuples have between 2 and 12 elements: those are the arities that implement the conversion. */
  predicate HasImplementedArity<T>(i: Input<T>) {
    i.AndTuple? ==> 2 <= |i.items| <= 12
  }

  /** An input the Rust type system lets a caller write. */
  type KeyInput<T> = i: Input<T> | HasImplementedArity(i) witness Groups([])

  datatype ConsoleAction<K, M> = ConsoleAction(
    keys: seq<seq<K>>,
    modifiers: seq<seq<M>>,
    withoutKeys: seq<seq<K>>,
    withoutModifiers: seq<seq<M>>)

  /** `IntoKeyGroup` / `IntoModifierGroup`: the OR group one tuple element stands for. */
  function IntoGroup<T>(g: GroupInput<T>): seq<T> {
    match g
    case OneKey(k) => [k]
    case KeyArray(ks) => ks
    case KeyVec(ks) => ks
  }

  /** The `From` conversions into `KeyInput` / `ModifierInput`. */
  function IntoGroups<T>(i: KeyInput<T>): seq<seq<T>> {
    match i
    case SingleKey(k) => [[k]]
    case OrGroup(ks) => [ks]
    case Groups(gs) => gs
    case AndTuple(items) => seq(|items|, j requires 0 <= j < |items| => IntoGroup(items[j]))
  }

  /** `ConsoleAction::new`: the given keys, and nothing else. */
  function New<K, M>(keys: KeyInput<K>): ConsoleAction<K, M> {
    ConsoleAction(IntoGroups(keys), [], [], [])
  }

  /** `with_modifiers`: replaces the required modifiers. */
  function WithModifiers<K, M>(a: ConsoleAction<K, M>, modifiers: KeyInput<M>): ConsoleAction<K, M> {
    a.(modifiers := IntoGroups(modifiers))
  }

  /** `without`: replaces the excluded keys. */
  function Without<K, M>(a: ConsoleAction<K, M>, keys: KeyInput<K>): ConsoleAction<K, M> {
    a.(withoutKeys := IntoGroups(keys))
  }

  /** `without_modifiers`: replaces the excluded modifiers. */
  function WithoutModifiers<K, M>(a: ConsoleAction<K, M>, modifiers: KeyInput<M>): ConsoleAction<K, M> {
    a.(withoutModifiers := IntoGroups(modifiers))
  }

  /** `get_single`: the key of an action made of one group holding one key. */
  function GetSingle<K, M>(a: ConsoleAction<K, M>): (r: Option<K>)
    ensures r.Some? ==> a.keys == [[r.value]]
    ensures r.None? ==> |a.keys| != 1 || |a.keys[0]| != 1
  {
    if |a.keys| == 1 && |a.keys[0]| == 1 then
      assert a.keys[0] == [a.keys[0][0]];
      assert a.keys == [a.keys[0]];
      Some(a.keys[0][0])
    else
      None
  }

  // ---------------------------------------------------------------------------
  // What an action's groups mean. The matcher that tests actions against the
  // keyboard is not part of this model; these predicates state the reading the
  // builders' documentation gives: a group list is an AND of OR groups, and an
  // excluded group vetoes the action when any of its keys is active.
  // ---------------------------------------------------------------------------

  /** Some key of the OR group is active. */
  ghost predicate GroupHit<T>(group: seq<T>, active: set<T>) {
    exists j :: 0 <= j < |group| && group[j] in active
  }

  /** Every OR group is hit: the AND of the groups. */
  ghost predicate AllGroupsHit<T>(groups: seq<seq<T>>, active: set<T>) {
    forall i :: 0 <= i < |groups| ==> GroupHit(groups[i], active)
  }

  /** Some group of an exclusion list is hit. */
  ghost predicate AnyGroupHit<T>(groups: seq<seq<T>>, active: set<T>) {
    exists i :: 0 <= i < |groups| && GroupHit(groups[i], active)
  }

  /** The action fires for the keys just pressed and the physical keys held. */
  ghost predicate Fires<K, M>(a: ConsoleAction<K, M>, justPressed: set<K>, held: set<M>) {
    && AllGroupsHit(a.keys, justPressed)
    && AllGroupsHit(a.modifiers, held)
    && !AnyGroupHit(a.withoutKeys, justPressed)
    && !AnyGroupHit(a.withoutModifiers, held)
  }

  /** An element of a tuple is hit when one of its keys is active. */
  ghost predicate ItemHit<T>(g: GroupInput<T>, active: set<T>) {
    match g
    case OneKey(k) => k in active
    case KeyArray(ks) => exists j :: 0 <= j < |ks| && ks[j] in active
    case KeyVec(ks) => exists j :: 0 <= j < |ks| && ks[j] in active
  }

  /** A list of one group: all of it is hit, and some of it is hit, exactly when that group is. */
  lemma OneGroup<T>(g: seq<T>, active: set<T>)
    ensures AllGroupsHit([g], active) <==> GroupHit(g, active)
    ensures AnyGroupHit([g], active) <==> GroupHit(g, active)
  {
    assert [g][0] == g;
  }

  /** A group of one or two keys is hit when one of them is active. */
  lemma SmallGroupHit<T>(a: T, b: T, active: set<T>)
    ensures GroupHit([a], active) <==> a in active
    ensures GroupHit([a, b], active) <==> a in active || b in active
  {
    if a in active {
      assert [a][0] in active && [a, b][0] in active;
    }
    if b in active {
      assert [a, b][1] in active;
    }
  }

  /** The shapes the conversions produce: keys keep their order and grouping. */
  lemma ConversionShape<T>(i: KeyInput<T>)
    ensures i.SingleKey? ==> IntoGroups(i) == [[i.key]]
    ensures i.OrGroup? ==> IntoGroups(i) == [i.keys]
    ensures i.Groups? ==> IntoGroups(i) == i.groups
    ensures i.AndTuple? ==>
      && |IntoGroups(i)| == |i.items|
      && forall j :: 0 <= j < |i.items| ==> IntoGroups(i)[j] == IntoGroup(i.items[j])
  {
  }

  /**
    The conversions mean what the builder documentation says: a single key must
    be active, an array is satisfied by any one of its keys, and a tuple needs
    every one of its elements satisfied.
   */
  lemma ConversionMeaning<T>(i: KeyInput<T>, active: set<T>)
    ensures i.SingleKey? ==> (AllGroupsHit(IntoGroups(i), active) <==> i.key in active)
    ensures i.OrGroup? ==>
      (AllGroupsHit(IntoGroups(i), active) <==> exists j :: 0 <= j < |i.keys| && i.keys[j] in active)
    ensures i.AndTuple? ==>
      (AllGroupsHit(IntoGroups(i), active) <==> forall j :: 0 <= j < |i.items| ==> ItemHit(i.items[j], active))
  {
    if i.SingleKey? {
      if i.key in active {
        assert IntoGroups(i)[0][0] in active;
      }
    } else if i.OrGroup? {
      assert IntoGroups(i)[0] == i.keys;
    } else if i.AndTuple? {
      var gs := IntoGroups(i);
      forall j | 0 <= j < |i.items|
        ensures GroupHit(gs[j], active) <==> ItemHit(i.items[j], active)
      {
        if i.items[j].OneKey? && ItemHit(i.items[j], active) {
          assert gs[j][0] in active;
        }
      }
    }
  }

  /** A fresh action is matched against the pressed keys only; held keys do not matter. */
  lemma NewFiresOnKeysAlone<K, M>(keys: KeyInput<K>, justPressed: set<K>, held: set<M>)
    ensures Fires(New<K, M>(keys), justPressed, held) <==> AllGroupsHit(IntoGroups(keys), justPressed)
  {
  }

  /** Each setter replaces its field: a second call keeps only the last argument. */
  lemma SettersLastCallWins<K, M>(a: ConsoleAction<K, M>, k1: KeyInput<K>, k2: KeyInput<K>, m1: KeyInput<M>, m2: KeyInput<M>)
    ensures WithModifiers(WithModifiers(a, m1), m2) == WithModifiers(a, m2)
    ensures Without(Without(a, k1), k2) == Without(a, k2)
    ensures WithoutModifiers(WithoutModifiers(a, m1), m2) == WithoutModifiers(a, m2)
  {
  }

  /** Each setter sets its own field from the conversion and leaves the other three as they were. */
  lemma SettersReplaceOneField<K, M>(a: ConsoleAction<K, M>, k: KeyInput<K>, m: KeyInput<M>)
    ensures var r := WithModifiers(a, m);
            r.modifiers == IntoGroups(m)
            && r.keys == a.keys && r.withoutKeys == a.withoutKeys && r.withoutModifiers == a.withoutModifiers
    ensures var r := Without(a, k);
            r.withoutKeys == IntoGroups(k)
            && r.keys == a.keys && r.modifiers == a.modifiers && r.withoutModifiers == a.withoutModifiers
    ensures var r := WithoutModifiers(a, m);
            r.withoutModifiers == IntoGroups(m)
            && r.keys == a.keys && r.modifiers == a.modifiers && r.withoutKeys == a.withoutKeys
  {
  }

  /** Setters of different fields commute. */
  lemma SettersCommute<K, M>(a: ConsoleAction<K, M>, k: KeyInput<K>, m1: KeyInput<M>, m2: KeyInput<M>)
    ensures WithModifiers(Without(a, k), m1) == Without(WithModifiers(a, m1), k)
    ensures WithModifiers(WithoutModifiers(a, m2), m1) == WithoutModifiers(WithModifiers(a, m1), m2)
    ensures Without(WithoutModifiers(a, m2), k) == WithoutModifiers(Without(a, k), m2)
    ensures WithModifiers(a, m1).keys == a.keys && WithModifiers(a, m1).withoutKeys == a.withoutKeys
  {
  }

  /** `get_single` finds a key exactly when the keys are one group of one key. */
  lemma GetSingleIff<K, M>(a: ConsoleAction<K, M>, k: K)
    ensures GetSingle(a) == Some(k) <==> a.keys == [[k]]
  {
  }
}
