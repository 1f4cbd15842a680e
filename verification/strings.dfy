/**
  The pieces of Rust's `str` API the console relies on, over `string` (a sequence
  of Unicode scalar values): searching for a character, `split`, `join`, `lines`,
  and `char::is_whitespace`. Indices are counted in characters, not bytes; every
  string here is valid UTF-8, so a character index and the byte offset of that
  character name the same cut.
 */
module Strings {
  import opened Outcomes

  /** Rust's `char::is_whitespace`: the Unicode White_Space property. */
  predicate IsWhitespace(c: char) {
    var n := c as int;
    || (0x09 <= n <= 0x0D)
    || n == 0x20
    || n == 0x85
    || n == 0xA0
    || n == 0x1680
    || (0x2000 <= n <= 0x200A)
    || n == 0x2028
    || n == 0x2029
    || n == 0x202F
    || n == 0x205F
    || n == 0x3000
  }

  /** The index of the first `c` in `s`, if there is one. */
  function IndexOf(s: string, c: char): (r: Option<nat>)
    ensures r.Some? ==> r.value < |s| && s[r.value] == c && c !in s[..r.value]
    ensures r.None? ==> c !in s
    decreases |s|
  {
    if s == [] then None
    else if s[0] == c then Some(0)
    else
      assert s == [s[0]] + s[1..];
      match IndexOf(s[1..], c)
      case None => None
      case Some(i) =>
        assert s[..i + 1] == [s[0]] + s[1..][..i];
        Some(i + 1)
  }

  /** How many times `c` occurs in `s`. */
  function Count(s: string, c: char): nat
    decreases |s|
  {
    if s == [] then 0 else (if s[0] == c then 1 else 0) + Count(s[1..], c)
  }

  lemma {:induction false} CountAppend(a: string, b: string, c: char)
    ensures Count(a + b, c) == Count(a, c) + Count(b, c)
    decreases |a|
  {
    if a == [] {
      assert a + b == b;
    } else {
      assert (a + b)[1..] == a[1..] + b;
      CountAppend(a[1..], b, c);
    }
  }

  lemma {:induction false} CountAbsent(s: string, c: char)
    requires c !in s
    ensures Count(s, c) == 0
    decreases |s|
  {
    if s != [] {
      assert s[0] in s;
      assert forall x :: x in s[1..] ==> x in s;
      CountAbsent(s[1..], c);
    }
  }

  /** Drops one trailing carriage return, if there is one. */
  function StripCr(t: string): (r: string)
    ensures r <= t && |t| - 1 <= |r|
    ensures |r| < |t| <==> |t| > 0 && t[|t| - 1] == '\r'
  {
    if |t| > 0 && t[|t| - 1] == '\r' then t[..|t| - 1] else t
  }

  /**
    Rust's `str::lines`: the text cut after each '\n'; a line that ended in
    '\n' loses it and then one '\r' before it, and an unterminated last line is
    kept as it is when it is not empty.
   */
  function Lines(s: string): (r: seq<string>)
    ensures forall i :: 0 <= i < |r| ==> '\n' !in r[i]
    decreases |s|
  {
    match IndexOf(s, '\n')
    case None => if s == [] then [] else [s]
    case Some(i) => [StripCr(s[..i])] + Lines(s[i + 1..])
  }

  /** There is one line per '\n', plus one for unterminated text after the last '\n'. */
  lemma {:induction false} LineCount(s: string)
    ensures |Lines(s)| == Count(s, '\n') + (if s != [] && s[|s| - 1] != '\n' then 1 else 0)
    decreases |s|
  {
    match IndexOf(s, '\n')
    case None =>
      CountAbsent(s, '\n');
      if s != [] {
        assert s[|s| - 1] in s;
      }
    case Some(i) =>
      var rest := s[i + 1..];
      assert s == s[..i] + ([s[i]] + rest);
      CountAppend(s[..i], [s[i]] + rest, '\n');
      CountAbsent(s[..i], '\n');
      assert ([s[i]] + rest)[1..] == rest;
      LineCount(rest);
      if rest != [] {
        assert s[|s| - 1] == rest[|rest| - 1];
      }
  }

  /** Rust's `join`: the parts in order with `sep` between consecutive ones. */
  function Join(parts: seq<string>, sep: string): string
    decreases |parts|
  {
    if |parts| == 0 then []
    else if |parts| == 1 then parts[0]
    else parts[0] + sep + Join(parts[1..], sep)
  }

  /** Rust's `str::split` with a one-character pattern: the pieces between the separators. */
  function Split(s: string, sep: char): (r: seq<string>)
    ensures |r| >= 1
    ensures forall i :: 0 <= i < |r| ==> sep !in r[i]
    decreases |s|
  {
    match IndexOf(s, sep)
    case None => [s]
    case Some(i) => [s[..i]] + Split(s[i + 1..], sep)
  }

  /** Splitting and joining back with the same separator loses nothing. */
  lemma {:induction false} JoinSplit(s: string, sep: char)
    ensures Join(Split(s, sep), [sep]) == s
    decreases |s|
  {
    match IndexOf(s, sep)
    case None =>
    case Some(i) =>
      var tail := Split(s[i + 1..], sep);
      assert Split(s, sep) == [s[..i]] + tail;
      assert ([s[..i]] + tail)[1..] == tail;
      JoinSplit(s[i + 1..], sep);
      assert s == s[..i] + [sep] + s[i + 1..];
  }

  /** `IndexOf` finds the first occurrence: any index with `c` and no `c` before it is the answer. */
  lemma {:induction false} IndexOfFirst(s: string, c: char, i: nat)
    requires i < |s| && s[i] == c && c !in s[..i]
    ensures IndexOf(s, c) == Some(i)
    decreases i
  {
    if i > 0 {
      assert s[0] in s[..i];
      assert s[1..][..i - 1] == s[1..i];
      assert forall x :: x in s[1..i] ==> x in s[..i];
      IndexOfFirst(s[1..], c, i - 1);
    }
  }

  /** Text up to a '\n' is one line, with one trailing '\r' dropped; the lines after it follow. */
  lemma LinesAfterNewline(a: string, b: string)
    requires '\n' !in a
    ensures Lines(a + "\n" + b) == [StripCr(a)] + Lines(b)
  {
    var s := a + "\n" + b;
    assert s[..|a|] == a;
    IndexOfFirst(s, '\n', |a|);
    assert s[|a| + 1..] == b;
  }

  /** A line `str::lines` gives back unchanged: no '\n' inside and no '\r' at the end. */
  predicate PlainLine(t: string) {
    '\n' !in t && StripCr(t) == t
  }

  /** Each part followed by '\n': the text `str::lines` splits back into the parts. */
  function Terminated(parts: seq<string>): string
    decreases |parts|
  {
    if parts == [] then [] else parts[0] + "\n" + Terminated(parts[1..])
  }

  /** Plain lines, each closed by a '\n', read back as the same lines; whatever follows is read after them. */
  lemma {:induction false} LinesOfTerminated(parts: seq<string>, rest: string)
    requires forall i :: 0 <= i < |parts| ==> PlainLine(parts[i])
    ensures Lines(Terminated(parts) + rest) == parts + Lines(rest)
    decreases |parts|
  {
    if parts == [] {
      assert Terminated(parts) + rest == rest;
    } else {
      var head := parts[0];
      var more := parts[1..];
      assert PlainLine(head);
      var tail := Terminated(more) + rest;
      assert Terminated(parts) + rest == head + "\n" + tail;
      LinesAfterNewline(head, tail);
      assert forall i :: 0 <= i < |more| ==> more[i] == parts[i + 1];
      LinesOfTerminated(more, rest);
      ConsAppend(parts, Lines(rest));
    }
  }

  /** Prepending the head again rebuilds the sequence, in front of whatever follows it. */
  lemma ConsAppend<T>(xs: seq<T>, ys: seq<T>)
    requires |xs| >= 1
    ensures [xs[0]] + (xs[1..] + ys) == xs + ys
  {
    assert xs == [xs[0]] + xs[1..];
  }

  /** Joining with '\n' and adding one more '\n' closes every part with a '\n'. */
  lemma {:induction false} JoinTerminated(parts: seq<string>)
    requires |parts| >= 1
    ensures Join(parts, "\n") + "\n" == Terminated(parts)
    decreases |parts|
  {
    if |parts| >= 2 {
      JoinTerminated(parts[1..]);
      assert Join(parts, "\n") + "\n" == parts[0] + "\n" + (Join(parts[1..], "\n") + "\n");
    }
  }

  /**
    Lines joined with '\n' and closed by one more '\n' read back as the same
    lines, provided each is a plain line.
   */
  lemma LinesOfJoined(parts: seq<string>, rest: string)
    requires |parts| >= 1
    requires forall i :: 0 <= i < |parts| ==> PlainLine(parts[i])
    ensures Lines(Join(parts, "\n") + "\n" + rest) == parts + Lines(rest)
  {
    JoinTerminated(parts);
    LinesOfTerminated(parts, rest);
  }
}
