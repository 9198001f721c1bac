/** The two JavaScript text conversions the core relies on:
    `String.prototype.split` with a one-character separator, and `Number(text)`
    restricted to decimal integer literals. */
module JsText {

  import opened Wrappers

  // ---------------------------------------------------------------------------
  // split(sep)
  // ---------------------------------------------------------------------------

  /** `s.split(sep)` for a one-character separator: the maximal runs between
      separators, in order, empty runs included; `"".split(sep)` is `[""]`. */
  function Split(s: string, sep: char): (parts: seq<string>)
    ensures |parts| >= 1
    ensures forall i :: 0 <= i < |parts| ==> sep !in parts[i]
    decreases |s|
  {
    if s == [] then [""]
    else
      var rest := Split(s[1..], sep);
      if s[0] == sep then [""] + rest
      else [[s[0]] + rest[0]] + rest[1..]
  }

  /** `parts.join(sep)`, the inverse of `Split`. */
  function Join(parts: seq<string>, sep: char): string
    requires |parts| >= 1
    decreases |parts|
  {
    if |parts| == 1 then parts[0] else parts[0] + [sep] + Join(parts[1..], sep)
  }

  /** Splitting loses nothing: joining the pieces with the separator gives back
      the original text (no trimming, no dropped empty pieces). */
  lemma {:induction false} SplitJoin(s: string, sep: char)
    ensures Join(Split(s, sep), sep) == s
    decreases |s|
  {
    if s != [] {
      var rest := Split(s[1..], sep);
      SplitJoin(s[1..], sep);
      if s[0] == sep {
        assert ([""] + rest)[1..] == rest;
        assert s == [sep] + s[1..];
      } else if |rest| == 1 {
        assert s == [s[0]] + rest[0];
      } else {
        var parts := [[s[0]] + rest[0]] + rest[1..];
        assert parts[1..] == rest[1..];
        assert Join(rest, sep) == rest[0] + [sep] + Join(rest[1..], sep);
        assert s == [s[0]] + s[1..];
      }
    }
  }

  /** A separator-free prefix glues onto the first piece of what follows it. */
  lemma {:induction false} SplitPrefix(p: string, t: string, sep: char)
    requires sep !in p
    ensures Split(p + t, sep) == [p + Split(t, sep)[0]] + Split(t, sep)[1..]
    decreases |p|
  {
    var tail := Split(t, sep);
    if p == [] {
      assert p + t == t;
      assert p + tail[0] == tail[0];
      assert [tail[0]] + tail[1..] == tail;
    } else {
      assert (p + t)[0] == p[0];
      assert (p + t)[1..] == p[1..] + t;
      SplitPrefix(p[1..], t, sep);
      assert [p[0]] + (p[1..] + tail[0]) == p + tail[0];
    }
  }

  /** Conversely, splitting a join of separator-free pieces gives the pieces
      back: `Split` and `Join` are inverse bijections. */
  lemma {:induction false} JoinSplit(parts: seq<string>, sep: char)
    requires |parts| >= 1
    requires forall i :: 0 <= i < |parts| ==> sep !in parts[i]
    ensures Split(Join(parts, sep), sep) == parts
    decreases |parts|
  {
    var p := parts[0];
    if |parts| == 1 {
      SplitPrefix(p, "", sep);
      assert p + "" == p;
    } else {
      var ps := parts[1..];
      JoinSplit(ps, sep);
      var t := [sep] + Join(ps, sep);
      assert Join(parts, sep) == p + t;
      assert t[0] == sep && t[1..] == Join(ps, sep);
      assert Split(t, sep) == [""] + Split(t[1..], sep);
      assert Split(t, sep) == [""] + ps;
      SplitPrefix(p, t, sep);
      assert p + "" == p;
      assert ([""] + ps)[1..] == ps;
      assert parts == [p] + ps;
    }
  }

  /** Index of the first `c` in `s`, or `|s|` when there is none. */
  function FirstIndex(s: string, c: char): (i: nat)
    ensures i <= |s|
    ensures i < |s| ==> s[i] == c
    ensures c !in s[..i]
    decreases |s|
  {
    if s == [] then 0
    else if s[0] == c then 0
    else
      var k := FirstIndex(s[1..], c);
      assert s[..k + 1] == [s[0]] + s[1..][..k];
      k + 1
  }

  /** The pieces of a split read off by index: the first piece ends at the first
      separator, and the remaining pieces are the split of what follows it. */
  lemma SplitAtFirst(s: string, sep: char)
    ensures Split(s, sep)[0] == s[..FirstIndex(s, sep)]
    ensures FirstIndex(s, sep) == |s| ==> |Split(s, sep)| == 1
    ensures FirstIndex(s, sep) < |s| ==>
      Split(s, sep)[1..] == Split(s[FirstIndex(s, sep) + 1..], sep)
  {
    var i := FirstIndex(s, sep);
    assert s == s[..i] + s[i..];
    SplitPrefix(s[..i], s[i..], sep);
    if i < |s| {
      var t := s[i..];
      assert t[0] == sep && t[1..] == s[i + 1..];
      assert s[..i] + "" == s[..i];
    } else {
      assert s[i..] == "";
      assert s[..i] + "" == s[..i];
    }
  }

  // ---------------------------------------------------------------------------
  // Number(text), for decimal integer literals
  // ---------------------------------------------------------------------------

  predicate IsDigit(c: char) {
    '0' <= c <= '9'
  }

  predicate AllDigits(s: string) {
    forall i :: 0 <= i < |s| ==> IsDigit(s[i])
  }

  /** Text that `Number()` reads as an integer: an optional sign followed by at
      least one decimal digit. */
  predicate IsIntegerLiteral(s: string) {
    if |s| >= 1 && (s[0] == '-' || s[0] == '+') then |s| >= 2 && AllDigits(s[1..])
    else |s| >= 1 && AllDigits(s)
  }

  /** The value of a string of decimal digits, most significant first. */
  function DigitsValue(s: string): nat
    requires AllDigits(s)
    decreases |s|
  {
    if s == [] then 0
    else DigitsValue(s[..|s| - 1]) * 10 + (s[|s| - 1] as int - '0' as int)
  }

  /** `Number(s)` for an integer literal `s`. */
  function NumberValue(s: string): int
    requires IsIntegerLiteral(s)
  {
    if s[0] == '-' then 0 - DigitsValue(s[1..])
    else if s[0] == '+' then DigitsValue(s[1..])
    else DigitsValue(s)
  }

  /** The decimal text of a natural number, without leading zeros. */
  function NatText(n: nat): (s: string)
    ensures |s| >= 1 && AllDigits(s)
    decreases n
  {
    var d := ['0' + (n % 10) as char];
    if n < 10 then d else NatText(n / 10) + d
  }

  /** The decimal text of an integer, as `String(n)` writes it. */
  function IntText(n: int): (s: string)
    ensures IsIntegerLiteral(s)
  {
    if n < 0 then "-" + NatText(-n) else NatText(n)
  }

  lemma {:induction false} NatTextValue(n: nat)
    ensures DigitsValue(NatText(n)) == n
    decreases n
  {
    var s := NatText(n);
    if n >= 10 {
      NatTextValue(n / 10);
      assert s[..|s| - 1] == NatText(n / 10);
    }
  }

  /** `Number(String(n)) == n` for every integer `n`. */
  lemma NumberOfIntText(n: int)
    ensures NumberValue(IntText(n)) == n
  {
    var s := IntText(n);
    if n < 0 {
      assert s[1..] == NatText(-n);
      NatTextValue(-n);
    } else {
      NatTextValue(n);
    }
  }
}
