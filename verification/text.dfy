/** The JavaScript string built-ins the core relies on: `trim()`,
    `includes()` and `split()`, over strings as sequences of characters. */
module Text {

  /** The characters `String.prototype.trim` removes: the WhiteSpace and
      LineTerminator code points of ECMAScript (tab, vertical tab, form feed,
      space, no-break space, byte-order mark, the space separators of
      category Zs, line feed, carriage return, line and paragraph separator). */
  predicate IsWhitespace(c: char) {
    || c == '\t' || c == '\n' || c == '\U{B}' || c == '\U{C}' || c == '\r' || c == ' '
    || c == '\U{A0}' || c == '\U{1680}' || ('\U{2000}' <= c <= '\U{200A}')
    || c == '\U{2028}' || c == '\U{2029}' || c == '\U{202F}' || c == '\U{205F}'
    || c == '\U{3000}' || c == '\U{FEFF}'
  }

  /** Every character of `s` is whitespace (vacuously so for ""). */
  predicate Blank(s: string) {
    forall i :: 0 <= i < |s| ==> IsWhitespace(s[i])
  }

  /** `s` with its leading whitespace removed: the longest suffix of `s` that
      does not start with whitespace. */
  function TrimStart(s: string): (r: string)
    ensures |r| <= |s| && r == s[|s| - |r|..]
    ensures Blank(s[..|s| - |r|])
    ensures r == [] || !IsWhitespace(r[0])
  {
    if s == [] || !IsWhitespace(s[0]) then s
    else
      var r := TrimStart(s[1..]);
      assert s[1..][..|s[1..]| - |r|] == s[1..|s| - |r|];
      r
  }

  /** `s` with its trailing whitespace removed: the longest prefix of `s` that
      does not end with whitespace. */
  function TrimEnd(s: string): (r: string)
    ensures |r| <= |s| && r == s[..|r|]
    ensures Blank(s[|r|..])
    ensures r == [] || !IsWhitespace(r[|r| - 1])
  {
    if s == [] || !IsWhitespace(s[|s| - 1]) then s
    else
      var r := TrimEnd(s[..|s| - 1]);
      assert s[..|s| - 1][|r|..] == s[|r|..|s| - 1];
      r
  }

  /** `String.prototype.trim`. */
  function Trim(s: string): string {
    TrimEnd(TrimStart(s))
  }

  /** `s.trim()` is falsy exactly when `s` consists of whitespace only. */
  lemma TrimEmptyIffBlank(s: string)
    ensures Trim(s) == "" <==> Blank(s)
  {
    var t := TrimStart(s);
    if Trim(s) == "" {
      // the trimmed tail is blank, and it cannot start with whitespace
      assert t[0..] == t;
      assert t == [];
      assert s[..|s|] == s;
    }
    if Blank(s) {
      BlankSuffix(s, |s| - |t|);
    }
  }

  lemma BlankSuffix(s: string, k: nat)
    requires Blank(s) && k <= |s|
    ensures Blank(s[k..])
  {
  }

  /** `s.includes(sub)`: `sub` occurs at some position of `s`. */
  function Contains(s: string, sub: string): bool
    decreases |s|
  {
    if |sub| > |s| then false
    else if sub <= s then true
    else Contains(s[1..], sub)
  }

  /** An occurrence of `sub` in `s`: the positional definition `Contains` decides. */
  ghost predicate OccursAt(s: string, sub: string, i: int) {
    0 <= i && i + |sub| <= |s| && s[i..i + |sub|] == sub
  }

  lemma {:induction false} ContainsIffOccurs(s: string, sub: string)
    ensures Contains(s, sub) <==> exists i :: OccursAt(s, sub, i)
    decreases |s|
  {
    if |sub| > |s| {
    } else if sub <= s {
      assert s[0..|sub|] == sub;
      assert OccursAt(s, sub, 0);
    } else {
      ContainsIffOccurs(s[1..], sub);
      if exists j :: OccursAt(s[1..], sub, j) {
        var j :| OccursAt(s[1..], sub, j);
        assert s[1..][j..j + |sub|] == s[j + 1..j + 1 + |sub|];
        assert OccursAt(s, sub, j + 1);
      }
      if exists i :: OccursAt(s, sub, i) {
        var i :| OccursAt(s, sub, i);
        assert i > 0;
        assert s[1..][i - 1..i - 1 + |sub|] == s[i..i + |sub|];
        assert OccursAt(s[1..], sub, i - 1);
      }
    }
  }

  /** An occurrence anywhere inside a piece is an occurrence of the whole. */
  lemma ContainsInConcat(a: string, b: string, c: string, sub: string)
    requires Contains(b, sub)
    ensures Contains(a + b + c, sub)
  {
    ContainsIffOccurs(b, sub);
    var i :| OccursAt(b, sub, i);
    assert (a + b + c)[|a| + i..|a| + i + |sub|] == b[i..i + |sub|];
    assert OccursAt(a + b + c, sub, |a| + i);
    ContainsIffOccurs(a + b + c, sub);
  }

  /** Every character of a contained string occurs in the containing one. */
  lemma ContainsChar(s: string, sub: string, k: nat)
    requires k < |sub| && Contains(s, sub)
    ensures sub[k] in s
  {
    ContainsIffOccurs(s, sub);
    var i :| OccursAt(s, sub, i);
    assert s[i..i + |sub|][k] == s[i + k];
  }

  /** A string missing one of the characters of `sub` does not contain `sub`. */
  lemma ContainsNeedsChar(s: string, sub: string, k: nat)
    requires k < |sub| && forall j :: 0 <= j < |s| ==> s[j] != sub[k]
    ensures !Contains(s, sub)
  {
    if Contains(s, sub) {
      ContainsChar(s, sub, k);
    }
  }

  /** The pieces of `s` between occurrences of `sep`, as `s.split(sep)` returns
      them for a one-character separator: always at least one piece, empty
      pieces kept. */
  function Split(s: string, sep: char): (pieces: seq<string>)
    ensures |pieces| >= 1
    ensures forall k :: 0 <= k < |pieces| ==> sep !in pieces[k]
    ensures Join(pieces, sep) == s
  {
    if s == [] then [""]
    else
      var rest := Split(s[1..], sep);
      if s[0] == sep then
        assert s == [sep] + s[1..];
        [""] + rest
      else
        var head := [s[0]] + rest[0];
        assert sep !in head;
        assert rest == [rest[0]] + rest[1..];
        assert Join(rest, sep) == if |rest| == 1 then rest[0] else rest[0] + [sep] + Join(rest[1..], sep);
        [head] + rest[1..]
  }

  /** `pieces.join(sep)`. */
  function Join(pieces: seq<string>, sep: char): string
    requires |pieces| >= 1
  {
    if |pieces| == 1 then pieces[0]
    else pieces[0] + [sep] + Join(pieces[1..], sep)
  }

  /** Splitting undoes joining whenever no piece holds the separator. */
  lemma {:induction false} SplitJoin(pieces: seq<string>, sep: char)
    requires |pieces| >= 1
    requires forall k :: 0 <= k < |pieces| ==> sep !in pieces[k]
    ensures Split(Join(pieces, sep), sep) == pieces
    decreases |pieces|
  {
    if |pieces| == 1 {
      SplitNoSep(pieces[0], sep);
    } else {
      SplitJoin(pieces[1..], sep);
      SplitAfterPiece(pieces[0], Join(pieces[1..], sep), sep);
    }
  }

  lemma {:induction false} SplitNoSep(p: string, sep: char)
    requires sep !in p
    ensures Split(p, sep) == [p]
    decreases |p|
  {
    if p != [] {
      SplitNoSep(p[1..], sep);
      assert [p[0]] + p[1..] == p;
    }
  }

  lemma {:induction false} SplitAfterPiece(p: string, t: string, sep: char)
    requires sep !in p
    ensures Split(p + [sep] + t, sep) == [p] + Split(t, sep)
    decreases |p|
  {
    if p == [] {
      assert p + [sep] + t == [sep] + t;
      assert ([sep] + t)[1..] == t;
    } else {
      assert (p + [sep] + t)[1..] == p[1..] + [sep] + t;
      SplitAfterPiece(p[1..], t, sep);
      assert [p[0]] + p[1..] == p;
    }
  }

  /** `s.endsWith(suffix)`. */
  predicate EndsWith(s: string, suffix: string) {
    |suffix| <= |s| && s[|s| - |suffix|..] == suffix
  }

  /** Whether `s` ends with `block`, and what precedes the block if so. */
  function TakeSuffix(s: string, block: string): (bool, string) {
    if EndsWith(s, block) then (true, s[..|s| - |block|]) else (false, s)
  }

  lemma PrefixOfConcat(a: string, b: string, c: string)
    requires a <= b
    ensures a <= b + c
  {
    assert (b + c)[..|a|] == b[..|a|];
  }

  lemma SuffixOfConcat(a: string, b: string, c: string)
    requires EndsWith(c, a)
    ensures EndsWith(b + c, a)
  {
    assert (b + c)[|b + c| - |a|..] == c[|c| - |a|..];
  }

  /** Cutting a known front off a concatenation gives back its tail. */
  lemma DropPrefix(a: string, b: string)
    ensures a <= a + b && (a + b)[|a|..] == b
  {
    assert (a + b)[..|a|] == a;
  }

  lemma TakeSuffixPresent(a: string, b: string)
    ensures TakeSuffix(a + b, b) == (true, a)
  {
    assert (a + b)[|a|..] == b;
    assert (a + b)[..|a|] == a;
  }

  lemma TakeSuffixAbsent(a: string, b: string)
    requires !EndsWith(a, b)
    ensures TakeSuffix(a, b) == (false, a)
  {
  }

  /** Two strings that differ at position `k` cannot both open a text after the same lead. */
  lemma PrefixMismatch(lead: string, x: string, y: string, t1: string, t2: string, k: nat)
    requires k < |x| && k < |y| && x[k] != y[k]
    ensures !(lead + y <= lead + x + t1 + t2)
  {
    assert (lead + x + t1 + t2)[|lead| + k] == x[k];
    assert (lead + y)[|lead| + k] == y[k];
  }

  /** A text ending in `x` does not end in `y` when the two differ `k` places from their ends. */
  lemma SuffixMismatch(lead: string, x: string, y: string, k: nat)
    requires k < |x| && k < |y| && x[|x| - 1 - k] != y[|y| - 1 - k]
    ensures !EndsWith(lead + x, y)
  {
    assert (lead + x)[|lead + x| - 1 - k] == x[|x| - 1 - k];
  }

  /** The same, with a shared tail `e` after `x` and `y`. */
  lemma SuffixMismatchBeforeTail(lead: string, x: string, e: string, y: string, k: nat)
    requires k < |x| && k < |y| && x[|x| - 1 - k] != y[|y| - 1 - k]
    ensures !EndsWith(lead + x + e, y + e)
  {
    var s := lead + x + e;
    assert s[|s| - 1 - (k + |e|)] == x[|x| - 1 - k];
    assert (y + e)[|y| - 1 - k] == y[|y| - 1 - k];
  }

  /** A piece followed by a tail ends the text it closes. */
  lemma EndsWithPieceAndTail(lead: string, x: string, e: string)
    ensures EndsWith(lead + x + e, x + e)
  {
    TakeSuffixPresent(lead, x + e);
    assert lead + x + e == lead + (x + e);
  }

  /** A quoted text ends with its closing quote mark preceded by the opening one and the text. */
  lemma EndsWithQuoted(intro: string, text: string, quote: string)
    requires |intro| >= 1 && [intro[|intro| - 1]] == quote
    ensures EndsWith(intro + text + quote, quote + text + quote)
  {
    var s := intro + text + quote;
    assert s == intro[..|intro| - 1] + (quote + text + quote);
    TakeSuffixPresent(intro[..|intro| - 1], quote + text + quote);
  }
}
