/**
 * The text the List command sends: a header, then one bullet line per
 * trigger, the whole text stripped.
 */
module Listing {
  import opened Strings

  const Header: string := "📋 可用的自定义命令列表：\n\n"

  /** A small black square followed by the emoji presentation selector, then a space. */
  const Bullet: string := "\U{25AA}\U{FE0F} "

  /** The line for one trigger: bullet, command prefix, trigger, newline. */
  function Line(prefix: string, trigger: string): string {
    Bullet + prefix + trigger + "\n"
  }

  /** The lines for the triggers `ks`, in the order of `ks`. */
  function ListLines(prefix: string, ks: seq<string>): string {
    if ks == [] then ""
    else ListLines(prefix, ks[..|ks| - 1]) + Line(prefix, ks[|ks| - 1])
  }

  /** The lines of two runs of triggers are the lines of the first, then of the second. */
  lemma {:induction false} ListLinesConcat(prefix: string, a: seq<string>, b: seq<string>)
    ensures ListLines(prefix, a + b) == ListLines(prefix, a) + ListLines(prefix, b)
    decreases |b|
  {
    if b == [] {
      assert a + b == a;
    } else {
      var init, last := b[..|b| - 1], b[|b| - 1];
      assert (a + b)[..|a + b| - 1] == a + init;
      assert (a + b)[|a + b| - 1] == last;
      assert ListLines(prefix, a + b) == ListLines(prefix, a + init) + Line(prefix, last);
      ListLinesConcat(prefix, a, init);
      assert ListLines(prefix, b) == ListLines(prefix, init) + Line(prefix, last);
    }
  }

  /** The listing grows one line at a time, as the command's loop builds it. */
  lemma {:induction false} ListingStep(prefix: string, ks: seq<string>, i: nat)
    requires i < |ks|
    ensures Header + ListLines(prefix, ks[..i + 1]) == Header + ListLines(prefix, ks[..i]) + Line(prefix, ks[i])
  {
    assert ks[..i + 1][..i] == ks[..i];
    assert ListLines(prefix, ks[..i + 1]) == ListLines(prefix, ks[..i]) + Line(prefix, ks[i]);
  }

  /** One line per trigger, in table order: the line of `ks[i]` comes after
      the lines of the triggers before it and before those of the triggers after it. */
  lemma {:induction false} ListLinesInOrder(prefix: string, ks: seq<string>, i: nat)
    requires i < |ks|
    ensures ListLines(prefix, ks)
      == ListLines(prefix, ks[..i]) + Line(prefix, ks[i]) + ListLines(prefix, ks[i + 1..])
  {
    assert ks == ks[..i] + [ks[i]] + ks[i + 1..];
    ListLinesConcat(prefix, ks[..i] + [ks[i]], ks[i + 1..]);
    ListLinesConcat(prefix, ks[..i], [ks[i]]);
    assert ListLines(prefix, [ks[i]]) == ListLines(prefix, []) + Line(prefix, ks[i]);
  }

  /** When the last trigger ends in a visible character, stripping the listing
      removes exactly its final newline and keeps the header. */
  lemma {:induction false} StrippedListing(prefix: string, ks: seq<string>)
    requires ks != [] && ks[|ks| - 1] != [] && !IsSpace(ks[|ks| - 1][|ks[|ks| - 1]| - 1])
    ensures var text := Header + ListLines(prefix, ks);
      Strip(text) == text[..|text| - 1]
  {
    var text := Header + ListLines(prefix, ks);
    var last := ks[|ks| - 1];
    var before := Header + ListLines(prefix, ks[..|ks| - 1]);
    var body := before + (Bullet + prefix + last);
    assert text == body + "\n" by {
      assert ListLines(prefix, ks) == ListLines(prefix, ks[..|ks| - 1]) + Line(prefix, last);
      assert Line(prefix, last) == (Bullet + prefix + last) + "\n";
      assert text == before + ((Bullet + prefix + last) + "\n");
    }
    assert body[0] == Header[0];
    assert body[|body| - 1] == last[|last| - 1];
    StripFinalNewline(body);
    assert text[..|text| - 1] == body;
  }
}
