/**
  The two editing actions bound to Backspace (`src/actions/actions/basic_input.rs`):
  plain Backspace deletes the last character, Ctrl+Backspace deletes back to
  the last whitespace character. Both do nothing when the console id does not
  resolve to a console.
 */
module BasicInput {
  import opened Outcomes
  import opened Strings
  import opened Keys
  import opened ConsoleActions
  import opened Consoles

  /** `String::pop` with the popped character dropped. */
  function DeleteChar(s: string): (r: string)
    ensures |s| == 0 ==> r == []
    ensures |s| > 0 ==> r + [s[|s| - 1]] == s
  {
    if |s| == 0 then s else s[..|s| - 1]
  }

  /** Deleting a character undoes typing it. */
  lemma DeleteCharUndoesTyping(s: string, c: char)
    ensures DeleteChar(s + [c]) == s
  {
  }

  /** `rfind(char::is_whitespace)`: the index of the last whitespace character. */
  function LastWhitespace(s: string): (r: Option<nat>)
    ensures r.Some? ==> r.value < |s| && IsWhitespace(s[r.value])
    ensures r.Some? ==> forall j :: r.value < j < |s| ==> !IsWhitespace(s[j])
    ensures r.None? ==> forall j :: 0 <= j < |s| ==> !IsWhitespace(s[j])
    decreases |s|
  {
    if s == [] then None
    else if IsWhitespace(s[|s| - 1]) then Some(|s| - 1)
    else LastWhitespace(s[..|s| - 1])
  }

  /** `delete_word`: truncate at the last whitespace character; to nothing when there is none. */
  function DeleteWord(s: string): (r: string)
    ensures r <= s
  {
    s[..LastWhitespace(s).GetOr(0)]
  }

  /**
    What `delete_word` leaves: when the input holds whitespace, exactly the text
    before the last whitespace character; otherwise nothing.
   */
  lemma DeleteWordLeavesTextBeforeLastWhitespace(s: string)
    ensures var r := DeleteWord(s);
            if exists j :: 0 <= j < |s| && IsWhitespace(s[j]) then
              && |r| < |s|
              && IsWhitespace(s[|r|])
              && (forall j :: |r| < j < |s| ==> !IsWhitespace(s[j]))
            else
              r == []
  {
  }

  /** Deleting a word after a whitespace character gives back the text before it. */
  lemma DeleteWordUndoesTypingAWord(before: string, space: char, word: string)
    requires IsWhitespace(space)
    requires forall j :: 0 <= j < |word| ==> !IsWhitespace(word[j])
    ensures DeleteWord(before + [space] + word) == before
  {
    var s := before + [space] + word;
    DeleteWordLeavesTextBeforeLastWhitespace(s);
    var r := DeleteWord(s);
    assert IsWhitespace(s[|before|]);
    assert |r| == |before|;
  }

  /** `delete_char` on the console `id`: pops its input when the id resolves. */
  function DeleteCharAction(world: World, id: ConsoleId): (r: World)
    ensures id !in world ==> r == world
    ensures id in world ==> id in r && r[id].input == DeleteChar(world[id].input)
    ensures id in world ==> r == world[id := world[id].(input := r[id].input)]
  {
    if id in world then world[id := world[id].(input := DeleteChar(world[id].input))] else world
  }

  /** `delete_word` on the console `id`: truncates its input when the id resolves. */
  function DeleteWordAction(world: World, id: ConsoleId): (r: World)
    ensures id !in world ==> r == world
    ensures id in world ==> id in r && r[id].input == DeleteWord(world[id].input)
    ensures id in world ==> r == world[id := world[id].(input := r[id].input)]
  {
    if id in world then world[id := world[id].(input := DeleteWord(world[id].input))] else world
  }

  /** Either Control key, the group both Backspace actions test. */
  const ControlKeys: KeyInput<KeyCode> := OrGroup([ControlLeft, ControlRight])

  /** The action `delete_char` is registered for: Backspace without Control. */
  function DeleteCharSpec(): ConsoleAction<Key, KeyCode> {
    WithoutModifiers(New(SingleKey(Backspace)), ControlKeys)
  }

  /** The action `delete_word` is registered for: Backspace with Control. */
  function DeleteWordSpec(): ConsoleAction<Key, KeyCode> {
    WithModifiers(New(SingleKey(Backspace)), ControlKeys)
  }

  /**
    The two Backspace actions split every keyboard state: when Backspace is
    pressed exactly one of them fires, chosen by whether a Control key is held;
    otherwise neither fires. They are different actions, so both registrations
    stay in the action cache.
   */
  lemma BackspaceActionsPartition(justPressed: set<Key>, held: set<KeyCode>)
    ensures Fires(DeleteWordSpec(), justPressed, held)
        <==> Backspace in justPressed && (ControlLeft in held || ControlRight in held)
    ensures Fires(DeleteCharSpec(), justPressed, held)
        <==> Backspace in justPressed && ControlLeft !in held && ControlRight !in held
    ensures Backspace in justPressed ==>
              (Fires(DeleteCharSpec(), justPressed, held) <==> !Fires(DeleteWordSpec(), justPressed, held))
    ensures DeleteCharSpec() != DeleteWordSpec()
  {
    var control := [ControlLeft, ControlRight];
    assert IntoGroups(ControlKeys) == [control];
    assert IntoGroups(SingleKey(Backspace)) == [[Backspace]];
    OneGroup([Backspace], justPressed);
    OneGroup(control, held);
    SmallGroupHit(Backspace, Backspace, justPressed);
    SmallGroupHit(ControlLeft, ControlRight, held);
    assert DeleteWordSpec() == ConsoleAction([[Backspace]], [control], [], []);
    assert DeleteCharSpec() == ConsoleAction([[Backspace]], [], [], [control]);
  }
}
