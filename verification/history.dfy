/**
  History navigation (`src/actions/actions/history.rs`). Up and Down walk
  through the history entries that start with the input as it was when
  navigation began; Enter ends navigation. The state lives in three values
  local to the `set_from_history` system, so there is one navigation state
  for the whole app, not one per console.

  The entry shown at position `k > 0` is `filtered[len - k - 1]`, with the
  subtraction saturating at 0. So the first Up shows the second-newest match,
  and when there are two matches or more the newest one is never shown. The
  lemmas below state this as the code does it.
 */
module History {
  import opened Outcomes
  import opened Keys
  import opened ConsoleActions
  import opened Consoles

  /**
    The navigation state: how many steps back from the snapshot the input is
    (0 shows the snapshot itself), the indices of the history entries that
    match the snapshot, and the snapshot, which is the input as it was when
    navigation began. The last two are absent while not navigating.
   */
  datatype Nav = Nav(position: nat, filtered: Option<seq<nat>>, snapshot: Option<string>)

  /** The state before any navigation, and the state Enter restores. */
  const Idle: Nav := Nav(0, None, None)

  ghost predicate Ascending(xs: seq<nat>) {
    forall i, j :: 0 <= i < j < |xs| ==> xs[i] < xs[j]
  }

  /** The indices, in ascending order, of the history entries that start with `prefix`. */
  function Matching(history: seq<string>, prefix: string): (r: seq<nat>)
    ensures Ascending(r)
    ensures forall j :: 0 <= j < |r| ==> r[j] < |history| && prefix <= history[r[j]]
    ensures forall i :: 0 <= i < |history| && prefix <= history[i] ==> i in r
    decreases |history|
  {
    if history == [] then []
    else
      var last := |history| - 1;
      var earlier := Matching(history[..last], prefix);
      assert forall j :: 0 <= j < |earlier| ==> history[earlier[j]] == history[..last][earlier[j]];
      if prefix <= history[last] then earlier + [last] else earlier
  }

  /**
    What `set_from_history` needs of its state to avoid panicking: once a
    filter exists, so does the snapshot, and every filtered index points into
    the history.
   */
  ghost predicate Coherent(nav: Nav, history: seq<string>) {
    nav.filtered.Some? ==>
      && nav.snapshot.Some?
      && forall j :: 0 <= j < |nav.filtered.value| ==> nav.filtered.value[j] < |history|
  }

  /** The position after one Up (`up`) or Down: a saturating step, then capped at the match count. */
  function NextPosition(position: nat, up: bool, count: nat): (p: nat)
    ensures p <= count
    ensures up && position < count ==> p == position + 1
    ensures !up && 0 < position <= count ==> p == position - 1
    ensures up && position >= count ==> p == count
    ensures !up && position == 0 ==> p == 0
  {
    Min(if up then position + 1 else SaturatingSub(position, 1), count)
  }

  /** Which filtered index the input shows at a non-zero position. */
  function ShownIndex(count: nat, position: nat): (i: nat)
    requires 1 <= position <= count
    ensures i < count
  {
    SaturatingSub(count, position + 1)
  }

  /** One Up (`up`) or Down press; the filter is computed on the first one after a reset. */
  function Navigate(nav: Nav, c: Console, up: bool): (r: (Nav, Console))
    requires Coherent(nav, c.history)
    ensures var (n, c') := r;
            && n.filtered.Some? && n.snapshot.Some?
            && n.position <= |n.filtered.value|
            && Coherent(n, c'.history)
            && c' == c.(input := c'.input)
    ensures nav.filtered.None? ==>
              r.0.snapshot == Some(c.input) && r.0.filtered == Some(Matching(c.history, c.input))
    ensures nav.filtered.Some? ==> r.0.filtered == nav.filtered && r.0.snapshot == nav.snapshot
    ensures r.0.position == NextPosition(nav.position, up, |r.0.filtered.value|)
    ensures r.0.position == 0 ==> r.1.input == r.0.snapshot.value
    ensures r.0.position > 0 ==>
              var f := r.0.filtered.value;
              r.1.input == c.history[f[ShownIndex(|f|, r.0.position)]]
  {
    var filtered := if nav.filtered.None? then Matching(c.history, c.input) else nav.filtered.value;
    var snapshot := if nav.filtered.None? then c.input else nav.snapshot.value;
    var position := NextPosition(nav.position, up, |filtered|);
    var input :=
      if position == 0 then snapshot
      else c.history[filtered[ShownIndex(|filtered|, position)]];
    (Nav(position, Some(filtered), Some(snapshot)), c.(input := input))
  }

  /** The keys the history action reacts to. */
  predicate IsArrow(key: Key) {
    key.ArrowUp? || key.ArrowDown?
  }

  /**
    `set_from_history` for one matched key on one console: Enter resets the
    navigation and leaves the console alone, any key other than the arrows and
    Enter changes nothing, and the arrows navigate.
   */
  function Step(key: Key, nav: Nav, c: Console): (r: (Nav, Console))
    requires IsArrow(key) ==> Coherent(nav, c.history)
    ensures key.Enter? ==> r == (Idle, c)
    ensures !IsArrow(key) && !key.Enter? ==> r == (nav, c)
    ensures IsArrow(key) ==>
              && r.1 == c.(input := r.1.input)
              && r.0.filtered.Some?
              && r.0.position <= |r.0.filtered.value|
              && Coherent(r.0, c.history)
  {
    match key
    case Enter => (Idle, c)
    case ArrowUp => Navigate(nav, c, true)
    case ArrowDown => Navigate(nav, c, false)
    case _ => (nav, c)
  }

  /**
    The states navigation reaches from `Idle` on a fixed history: either idle,
    or navigating with the filter that matches the snapshot and a position
    within it.
   */
  ghost predicate Tracking(nav: Nav, history: seq<string>) {
    match nav.filtered
    case None => nav.position == 0 && nav.snapshot.None?
    case Some(f) =>
      && nav.snapshot.Some?
      && f == Matching(history, nav.snapshot.value)
      && nav.position <= |f|
  }

  /** The input a navigating state puts in the console. */
  function Shown(nav: Nav, history: seq<string>): string
    requires Tracking(nav, history) && nav.filtered.Some?
  {
    var f := nav.filtered.value;
    if nav.position == 0 then nav.snapshot.value else history[f[ShownIndex(|f|, nav.position)]]
  }

  /** Every key keeps the reachable states reachable, and they never make `set_from_history` panic. */
  lemma {:induction false} StepKeepsTracking(key: Key, nav: Nav, c: Console)
    requires Tracking(nav, c.history)
    ensures Coherent(nav, c.history)
    ensures Tracking(Step(key, nav, c).0, c.history)
    ensures Tracking(Idle, c.history)
  {
  }

  /**
    After Up or Down from a reachable state, the input is the snapshot or a
    history entry that starts with the snapshot; it is the one the state shows.
   */
  lemma {:induction false} ArrowShowsAMatch(key: Key, nav: Nav, c: Console)
    requires IsArrow(key) && Tracking(nav, c.history)
    ensures var (n, c') := Step(key, nav, c);
            && Tracking(n, c.history)
            && n.snapshot.Some?
            && n.snapshot.value <= c'.input
            && (c'.input == n.snapshot.value || c'.input in c.history)
            && c'.input == Shown(n, c.history)
  {
    StepKeepsTracking(key, nav, c);
    var (n, c') := Step(key, nav, c);
    var f := n.filtered.value;
    if n.position > 0 {
      var i := f[ShownIndex(|f|, n.position)];
      assert c'.input == c.history[i];
    }
  }

  /** Up saturates at the number of matches, Down at 0; in between they move by one. */
  lemma UpAndDownSaturate(nav: Nav, c: Console)
    requires Tracking(nav, c.history)
    ensures var n := Step(ArrowUp, nav, c).0;
            n.position == Min(nav.position + 1, |n.filtered.value|)
    ensures var n := Step(ArrowDown, nav, c).0;
            n.position == SaturatingSub(nav.position, 1)
  {
  }

  /** With no matching entry the position stays 0 and the snapshot comes back on every press. */
  lemma NoMatchRestoresSnapshot(key: Key, nav: Nav, c: Console)
    requires IsArrow(key) && Tracking(nav, c.history)
    requires Step(key, nav, c).0.filtered == Some([])
    ensures var (n, c') := Step(key, nav, c);
            n.position == 0 && c'.input == n.snapshot.value
  {
  }

  /** Down undoes Up below the top, and Up undoes Down above the bottom. */
  lemma {:induction false} DownUndoesUp(nav: Nav, c: Console)
    requires Tracking(nav, c.history) && nav.filtered.Some?
    ensures nav.position < |nav.filtered.value| ==>
              var (n, c') := Step(ArrowUp, nav, c);
              Step(ArrowDown, n, c') == (nav, c.(input := Shown(nav, c.history)))
    ensures nav.position > 0 ==>
              var (n, c') := Step(ArrowDown, nav, c);
              Step(ArrowUp, n, c') == (nav, c.(input := Shown(nav, c.history)))
  {
    var f := nav.filtered.value;
    if nav.position < |f| {
      var (n, c') := Step(ArrowUp, nav, c);
      assert n == nav.(position := nav.position + 1) && c'.history == c.history;
      assert Step(ArrowDown, n, c').0 == nav;
    }
    if nav.position > 0 {
      var (n, c') := Step(ArrowDown, nav, c);
      assert n == nav.(position := nav.position - 1) && c'.history == c.history;
      assert Step(ArrowUp, n, c').0 == nav;
    }
  }

  /** With two matches or more, no position shows the newest one. */
  lemma NewestMatchNeverShown(count: nat, position: nat)
    requires 2 <= count && 1 <= position <= count
    ensures ShownIndex(count, position) < count - 1
    ensures position == 1 ==> ShownIndex(count, position) == count - 2
  {
  }

  /**
    The first Up after a reset shows the second-newest matching entry when
    there are two or more, and the only one when there is one.
   */
  lemma {:induction false} FirstUpShowsSecondNewest(c: Console)
    ensures var m := Matching(c.history, c.input);
            var (n, c') := Step(ArrowUp, Idle, c);
            && (|m| >= 2 ==> n.position == 1 && c'.input == c.history[m[|m| - 2]])
            && (|m| == 1 ==> n.position == 1 && c'.input == c.history[m[0]])
            && (|m| == 0 ==> n.position == 0 && c'.input == c.input)
  {
  }

  /** The example history used below. */
  const GoHistory: seq<string> := ["go build", "go test", "rust fmt"]

  /** One step of `Matching`: the last entry is added when it matches. */
  lemma MatchingLast(history: seq<string>, prefix: string)
    requires history != []
    ensures var last := |history| - 1;
            Matching(history, prefix)
            == Matching(history[..last], prefix) + (if prefix <= history[last] then [last] else [])
  {
  }

  /** In that history, the entries starting with "go" are entries 0 and 1. */
  lemma GoHistoryMatches()
    ensures Matching(GoHistory, "go") == [0, 1]
  {
    var h := GoHistory;
    assert h[..1][..0] == [];
    MatchingLast(h[..1], "go");
    assert "go" <= h[..1][0];
    assert Matching(h[..1], "go") == [0];
    assert h[..2][..1] == h[..1];
    MatchingLast(h[..2], "go");
    assert "go" <= h[..2][1];
    assert Matching(h[..2], "go") == [0, 1];
    MatchingLast(h, "go");
    assert h[2][0] == 'r';
    assert !("go" <= h[2]);
  }

  /**
    The walk through `["go build", "go test", "rust fmt"]` from the input "go":
    Up, Up, Down, Down show "go build", "go build", "go build" and then "go"
    again; "go test", the newest match, never appears.
   */
  lemma GoHistoryWalk()
    ensures var c := Console([], "go", "> ", GoHistory);
            var (n1, c1) := Step(ArrowUp, Idle, c);
            var (n2, c2) := Step(ArrowUp, n1, c1);
            var (n3, c3) := Step(ArrowDown, n2, c2);
            var (n4, c4) := Step(ArrowDown, n3, c3);
            && c1.input == "go build" && n1.position == 1
            && c2.input == "go build" && n2.position == 2
            && c3.input == "go build" && n3.position == 1
            && c4.input == "go" && n4.position == 0
  {
    GoHistoryMatches();
    var c := Console([], "go", "> ", GoHistory);
    var f := Some([0, 1]);
    var (n1, c1) := Step(ArrowUp, Idle, c);
    assert n1 == Nav(1, f, Some("go")) && c1 == c.(input := "go build");
    var (n2, c2) := Step(ArrowUp, n1, c1);
    assert n2 == Nav(2, f, Some("go")) && c2 == c1;
    var (n3, c3) := Step(ArrowDown, n2, c2);
    assert n3 == n1 && c3 == c1;
    var (n4, c4) := Step(ArrowDown, n3, c3);
    assert n4 == Nav(0, f, Some("go")) && c4 == c;
  }

  /**
    `set_from_history` on the console `id` for the matched keys: the first
    key decides, and for Up and Down the console must exist (the source
    unwraps the lookup). Only that console's input changes.
   */
  function SetFromHistory(matchedKeys: seq<Key>, id: ConsoleId, nav: Nav, world: World): (r: (Nav, World))
    requires |matchedKeys| > 0
    requires IsArrow(matchedKeys[0]) ==> id in world && Coherent(nav, world[id].history)
    ensures !IsArrow(matchedKeys[0]) ==> r.1 == world
    ensures matchedKeys[0].Enter? ==> r.0 == Idle
    ensures !IsArrow(matchedKeys[0]) && !matchedKeys[0].Enter? ==> r.0 == nav
    ensures IsArrow(matchedKeys[0]) ==>
              && id in r.1
              && r.1 == world[id := world[id].(input := r.1[id].input)]
              && r.0.filtered.Some?
    ensures IsArrow(matchedKeys[0]) ==>
              var (n, c) := Step(matchedKeys[0], nav, world[id]);
              r.0 == n && r.1[id] == c
  {
    var key := matchedKeys[0];
    if IsArrow(key) then
      var (n, c) := Step(key, nav, world[id]);
      (n, world[id := c])
    else
      (Step(key, nav, Console([], [], [], [])).0, world)
  }

  /**
    An arrow on a console from a state reached on that console's history: the
    position takes one saturating step, the state stays reachable, and the
    input becomes what the state shows, which is the snapshot or a history
    entry that starts with it.
   */
  lemma {:induction false} SetFromHistoryShowsAMatch(matchedKeys: seq<Key>, id: ConsoleId, nav: Nav, world: World)
    requires |matchedKeys| > 0 && IsArrow(matchedKeys[0]) && id in world
    requires Coherent(nav, world[id].history) && Tracking(nav, world[id].history)
    ensures var (n, w) := SetFromHistory(matchedKeys, id, nav, world);
            var h := world[id].history;
            && Tracking(n, h)
            && n.position == NextPosition(nav.position, matchedKeys[0].ArrowUp?, |n.filtered.value|)
            && w[id].input == Shown(n, h)
            && n.snapshot.value <= w[id].input
            && (w[id].input == n.snapshot.value || w[id].input in h)
  {
    ArrowShowsAMatch(matchedKeys[0], nav, world[id]);
  }

  // ---------------------------------------------------------------------------
  // The navigation state is one value for the whole app, while each console
  // has its own history. A state reached on one console can hold indices that
  // are out of bounds for another console's history, and an arrow there then
  // indexes past the end. The corrected version keeps one state per console.
  // ---------------------------------------------------------------------------

  /** Two consoles with the input "go": one with the example history, one with no history. */
  const GoConsole: Console := Console([], "go", "> ", GoHistory)
  const FreshConsole: Console := Console([], "go", "> ", [])

  /**
    Up on console 0 (the example history) leaves a state that is fine for
    console 0 but not for console 1, whose history is empty: the next Up on
    console 1 would show `history[0]` of an empty history.
   */
  lemma SharedStateCrossesConsoles()
    ensures var world := map[0 := GoConsole, 1 := FreshConsole];
            var (n, w) := SetFromHistory([ArrowUp], 0, Idle, world);
            && Tracking(n, w[0].history)
            && n.filtered == Some([0, 1]) && n.position == 1
            && w[1] == FreshConsole
            && !Coherent(n, w[1].history)
            && n.filtered.value[ShownIndex(2, NextPosition(n.position, true, 2))] >= |w[1].history|
  {
    GoHistoryMatches();
    var world := map[0 := GoConsole, 1 := FreshConsole];
    var (n, w) := SetFromHistory([ArrowUp], 0, Idle, world);
    assert n == Nav(1, Some([0, 1]), Some("go"));
    assert w[1] == FreshConsole;
  }

  /** One navigation state per console; a console without an entry is idle. */
  type NavStates = map<ConsoleId, Nav>

  function NavOf(navs: NavStates, id: ConsoleId): Nav {
    if id in navs then navs[id] else Idle
  }

  /** Every console's state was reached on that console's own history. */
  ghost predicate AllTracking(navs: NavStates, world: World) {
    forall id :: id in navs ==> id in world && Tracking(navs[id], world[id].history)
  }

  /**
    `set_from_history` with the navigation state kept per console. Only the
    console the key was pressed on needs to exist, and the states stay valid
    for every console, so no arrow ever indexes out of bounds.
   */
  function SetFromHistoryPerConsole(matchedKeys: seq<Key>, id: ConsoleId, navs: NavStates, world: World): (r: (NavStates, World))
    requires |matchedKeys| > 0
    requires IsArrow(matchedKeys[0]) ==> id in world
    requires AllTracking(navs, world)
    ensures AllTracking(r.0, r.1)
    ensures forall other :: other != id ==> NavOf(r.0, other) == NavOf(navs, other)
    ensures !IsArrow(matchedKeys[0]) ==> r.1 == world
    ensures matchedKeys[0].Enter? ==> NavOf(r.0, id) == Idle
    ensures !IsArrow(matchedKeys[0]) && !matchedKeys[0].Enter? ==> r.0 == navs
    ensures IsArrow(matchedKeys[0]) ==>
              && id in r.1
              && r.1 == world[id := world[id].(input := r.1[id].input)]
              && NavOf(r.0, id).snapshot.Some?
              && NavOf(r.0, id).snapshot.value <= r.1[id].input
              && (r.1[id].input == NavOf(r.0, id).snapshot.value || r.1[id].input in world[id].history)
  {
    var key := matchedKeys[0];
    if IsArrow(key) then
      var nav := NavOf(navs, id);
      StepKeepsTracking(key, nav, world[id]);
      ArrowShowsAMatch(key, nav, world[id]);
      var (n, c) := Step(key, nav, world[id]);
      (navs[id := n], world[id := c])
    else if key.Enter? then
      (navs - {id}, world)
    else
      (navs, world)
  }

  /**
    The same presses with one state per console: Up on console 0 and then Up
    on console 1 leave console 1 showing its own input, since nothing in its
    history matches, and console 0's state untouched.
   */
  lemma PerConsoleStatesStayApart()
    ensures var world := map[0 := GoConsole, 1 := FreshConsole];
            var (navs1, w1) := SetFromHistoryPerConsole([ArrowUp], 0, map[], world);
            var (navs2, w2) := SetFromHistoryPerConsole([ArrowUp], 1, navs1, w1);
            && w2[0].input == "go build"
            && w2[1] == FreshConsole
            && NavOf(navs2, 0) == NavOf(navs1, 0)
  {
    GoHistoryMatches();
    var world := map[0 := GoConsole, 1 := FreshConsole];
    var (navs1, w1) := SetFromHistoryPerConsole([ArrowUp], 0, map[], world);
    assert navs1[0] == Nav(1, Some([0, 1]), Some("go"));
    assert w1[0].input == "go build" && w1[1] == FreshConsole;
    var (navs2, w2) := SetFromHistoryPerConsole([ArrowUp], 1, navs1, w1);
    assert Matching(FreshConsole.history, "go") == [];
    assert navs2[1] == Nav(0, Some([]), Some("go"));
  }

  /** The action `set_from_history` is registered for: any of Up, Down and Enter. */
  function HistorySpec(): ConsoleAction<Key, KeyCode> {
    New(OrGroup([ArrowUp, ArrowDown, Enter]))
  }

  /** The history action fires when Up, Down or Enter is pressed, whatever is held. */
  lemma HistorySpecFiresOnItsKeys(justPressed: set<Key>, held: set<KeyCode>)
    ensures Fires(HistorySpec(), justPressed, held)
        <==> ArrowUp in justPressed || ArrowDown in justPressed || Enter in justPressed
    ensures GetSingle(HistorySpec()).None?
  {
    var g := IntoGroups(OrGroup([ArrowUp, ArrowDown, Enter]));
    assert g == [[ArrowUp, ArrowDown, Enter]];
    if ArrowUp in justPressed {
      assert g[0][0] in justPressed;
    }
    if ArrowDown in justPressed {
      assert g[0][1] in justPressed;
    }
    if Enter in justPressed {
      assert g[0][2] in justPressed;
    }
  }
}
