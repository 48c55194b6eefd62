/**
 * The groups that the four command patterns capture, written as string
 * functions instead of regular expressions. Each pattern is
 * `^` + the escaped prefix + a literal marker + groups + `$`; `re.escape`
 * makes the prefix match literally. In these patterns `.` matches any
 * character except a newline, and `$` matches at the end of the message or
 * just before a newline that ends it.
 */
module Patterns {
  import opened Wrappers
  import opened Strings

  const AskMarker: string := "问："
  const AnswerMarker: string := "答："
  const DeleteMarker: string := "删："
  const ListWord: string := "列表"

  /** `b` is what a trailing `(.+)$` captures when it has to match all of `s`. */
  ghost predicate FillsLine(s: string, b: string) {
    b != [] && '\n' !in b && (s == b || s == b + "\n")
  }

  /** The capture of a trailing `(.+)$` over the rest `s` of the message. */
  function LineBody(s: string): (r: Option<string>)
    ensures r.Some? ==> FillsLine(s, r.value)
    ensures r.None? ==> forall b :: !FillsLine(s, b)
  {
    var body := if s != [] && s[|s| - 1] == '\n' then s[..|s| - 1] else s;
    assert s != [] && s[|s| - 1] == '\n' ==> s == body + "\n";
    if body != [] && '\n' !in body then Some(body) else None
  }

  /** A trailing `(.+)$` captures `b` whenever `b` fills the rest of the line. */
  lemma {:induction false} LineBodyComplete(s: string, b: string)
    requires FillsLine(s, b)
    ensures LineBody(s) == Some(b)
  {
    if s == b + "\n" {
      assert s[..|s| - 1] == b;
    }
  }

  /** The lazy trigger group may end at `i`: `答：` starts there, after at
      least one character, and at least one character follows it. */
  ghost predicate SplitsAt(s: string, i: int) {
    1 <= i && i + 2 < |s| && MarkerAt(s, i)
  }

  /** `答：` starts at index `i` of `s`. */
  ghost predicate MarkerAt(s: string, i: int) {
    0 <= i && i + 2 <= |s| && s[i..i + 2] == AnswerMarker
  }

  /** The first place at or after `from` where the line splits. */
  function FindSplit(s: string, from: nat): (r: Option<nat>)
    requires from >= 1
    ensures r.Some? ==> from <= r.value && SplitsAt(s, r.value)
    ensures r.Some? ==> forall j :: from <= j < r.value ==> !SplitsAt(s, j)
    ensures r.None? ==> forall j :: from <= j ==> !SplitsAt(s, j)
    decreases |s| - from
  {
    if from + 2 >= |s| then None
    else if s[from] == '答' && s[from + 1] == '：' then
      assert s[from..from + 2] == AnswerMarker;
      Some(from)
    else
      FindSplit(s, from + 1)
  }

  /** `(.+?)答：(.+)` over one line: the trigger is the shortest non-empty
      start that is followed by `答：` and a non-empty response. */
  function SplitAnswer(s: string): (r: Option<(string, string)>)
    ensures r.Some? ==> |r.value.0| >= 1 && |r.value.1| >= 1
    ensures r.Some? ==> s == r.value.0 + AnswerMarker + r.value.1
    ensures r.Some? ==> SplitsAt(s, |r.value.0|)
    ensures r.Some? ==> forall j :: 0 <= j < |r.value.0| ==> !SplitsAt(s, j)
    ensures r.None? ==> forall j :: !SplitsAt(s, j)
  {
    match FindSplit(s, 1)
    case None => None
    case Some(i) =>
      assert s == s[..i] + s[i..i + 2] + s[i + 2..];
      Some((s[..i], s[i + 2..]))
  }

  /** `^P<marker>(.+)$`: the group after a literal marker, which is
      non-empty, has no newline, and with the prefix and the marker makes up
      the message, up to one trailing newline. */
  function MatchTail(prefix: string, marker: string, msg: string): (r: Option<string>)
    ensures r.Some? ==> r.value != [] && '\n' !in r.value
    ensures r.Some? ==> var text := prefix + marker + r.value; msg == text || msg == text + "\n"
  {
    var head := prefix + marker;
    if StartsWith(msg, head) then
      assert msg == head + msg[|head|..];
      LineBody(msg[|head|..])
    else None
  }

  /** The group after the marker is captured from every message of that shape. */
  lemma {:induction false} MatchTailComplete(prefix: string, marker: string, msg: string, b: string)
    requires b != [] && '\n' !in b
    requires msg == prefix + marker + b || msg == prefix + marker + b + "\n"
    ensures MatchTail(prefix, marker, msg) == Some(b)
  {
    var head := prefix + marker;
    assert msg[..|head|] == head;
    var rest := msg[|head|..];
    if msg == head + b {
      assert rest == b;
    } else {
      assert rest == b + "\n";
    }
    LineBodyComplete(rest, b);
  }

  /** `^P问：(?P<trigger>.+?)答：(?P<response>.+)$`: the raw trigger and response
      groups. Both are non-empty single lines, and with the prefix and the two
      markers they make up the message, up to one trailing newline. */
  function MatchAdd(prefix: string, msg: string): (r: Option<(string, string)>)
    ensures r.Some? ==> r.value.0 != [] && r.value.1 != []
    ensures r.Some? ==> '\n' !in r.value.0 && '\n' !in r.value.1
    ensures r.Some? ==> var text := prefix + AskMarker + r.value.0 + AnswerMarker + r.value.1;
      msg == text || msg == text + "\n"
  {
    match MatchTail(prefix, AskMarker, msg)
    case None => None
    case Some(line) =>
      var split := SplitAnswer(line);
      if split.None? then None
      else
        AddGroupsReassemble(prefix, msg, line, split.value.0, split.value.1);
        split
  }

  /** The Add groups `t` and `a` split out of the line after `P问：` reassemble
      into the message. */
  lemma {:induction false} AddGroupsReassemble(prefix: string, msg: string, line: string, t: string, a: string)
    requires '\n' !in line
    requires msg == prefix + AskMarker + line || msg == prefix + AskMarker + line + "\n"
    requires line == t + AnswerMarker + a
    ensures '\n' !in t && '\n' !in a
    ensures var text := prefix + AskMarker + t + AnswerMarker + a; msg == text || msg == text + "\n"
  {
  }

  /** `^P删：(?P<trigger>.+)$`: the raw trigger group, everything after the marker. */
  function MatchDelete(prefix: string, msg: string): (r: Option<string>)
    ensures r.Some? ==> r.value != [] && '\n' !in r.value
    ensures r.Some? ==> var text := prefix + DeleteMarker + r.value; msg == text || msg == text + "\n"
  {
    MatchTail(prefix, DeleteMarker, msg)
  }

  /** The Delete pattern captures exactly the trigger of any message of its shape. */
  lemma {:induction false} MatchDeleteComplete(prefix: string, msg: string, b: string)
    requires b != [] && '\n' !in b
    requires msg == prefix + DeleteMarker + b || msg == prefix + DeleteMarker + b + "\n"
    ensures MatchDelete(prefix, msg) == Some(b)
  {
    MatchTailComplete(prefix, DeleteMarker, msg, b);
  }

  /** `^P(?P<trigger>.+)$`: the raw trigger group of the catch-all pattern,
      everything after the prefix. */
  function MatchDynamic(prefix: string, msg: string): (r: Option<string>)
    ensures r.Some? ==> r.value != [] && '\n' !in r.value
    ensures r.Some? ==> msg == prefix + r.value || msg == prefix + r.value + "\n"
  {
    if StartsWith(msg, prefix) then
      assert msg == prefix + msg[|prefix|..];
      LineBody(msg[|prefix|..])
    else None
  }

  /** The catch-all pattern captures exactly the rest of any message of its shape. */
  lemma {:induction false} MatchDynamicComplete(prefix: string, msg: string, b: string)
    requires b != [] && '\n' !in b
    requires msg == prefix + b || msg == prefix + b + "\n"
    ensures MatchDynamic(prefix, msg) == Some(b)
  {
    assert msg[..|prefix|] == prefix;
    var rest := msg[|prefix|..];
    if msg == prefix + b {
      assert rest == b;
    } else {
      assert rest == b + "\n";
    }
    LineBodyComplete(rest, b);
  }

  /** `^P列表$`. A List message is also of the catch-all shape, with the
      word `列表` as its trigger. */
  predicate MatchList(prefix: string, msg: string)
    ensures MatchList(prefix, msg) ==> MatchDynamic(prefix, msg) == Some(ListWord)
  {
    if msg == prefix + ListWord || msg == prefix + ListWord + "\n" then
      MatchDynamicComplete(prefix, msg, ListWord);
      true
    else false
  }

  /** No `答：` inside `t` after its first character. */
  ghost predicate NoMarkerInside(t: string) {
    forall j :: 1 <= j ==> !MarkerAt(t, j)
  }

  /** A line written as trigger, `答：`, response splits back into the two,
      when the trigger has no `答：` of its own. */
  lemma {:induction false} SplitAnswerRoundTrip(t: string, r: string)
    requires t != [] && r != [] && NoMarkerInside(t)
    ensures SplitAnswer(t + AnswerMarker + r) == Some((t, r))
  {
    var line := t + AnswerMarker + r;
    assert line[|t|..|t| + 2] == AnswerMarker;
    assert SplitsAt(line, |t|);
    forall j | 0 <= j < |t|
      ensures !SplitsAt(line, j)
    {
      if 1 <= j && j + 1 < |t| {
        assert !MarkerAt(t, j);
        assert line[j..j + 2] == t[j..j + 2];
      } else if j == |t| - 1 && j >= 1 {
        assert line[j + 1] == AnswerMarker[0] == '答';
        assert line[j..j + 2][1] == line[j + 1];
      }
    }
    var split := SplitAnswer(line);
    assert |split.value.0| == |t|;
    assert split.value.0 == line[..|t|] == t;
    assert split.value.1 == line[|t| + 2..] == r;
  }

  /** Writing the Add command out and matching it gives back its two parts,
      when the trigger has no `答：` of its own. */
  lemma {:induction false} AddFormatRoundTrip(prefix: string, t: string, r: string)
    requires t != [] && r != [] && '\n' !in t && '\n' !in r
    requires NoMarkerInside(t)
    ensures MatchAdd(prefix, prefix + AskMarker + t + AnswerMarker + r) == Some((t, r))
  {
    var line := t + AnswerMarker + r;
    assert forall c :: c in line ==> c in t || c in AnswerMarker || c in r;
    assert prefix + AskMarker + t + AnswerMarker + r == prefix + AskMarker + line;
    MatchTailComplete(prefix, AskMarker, prefix + AskMarker + line, line);
    SplitAnswerRoundTrip(t, r);
  }

  /** With two markers, the trigger ends at the first one. */
  lemma {:induction false} SplitAtFirstMarker()
    ensures MatchAdd(".", ".问：a答：b答：c") == Some(("a", "b答：c"))
  {
    assert ".问：a答：b答：c" == "." + AskMarker + "a" + AnswerMarker + "b答：c";
    AddFormatRoundTrip(".", "a", "b答：c");
  }
}
