/** Strings as the program sees them: sequences of UTF-16 code units. */
module Text16 {
  import opened Common

  /** A UTF-16 code unit, in which lengths and positions of strings are counted. */
  type Unit = x: int | 0 <= x < 0x1_0000

  type Text = seq<Unit>

  const COLON: Unit := 0x3A

  /** White space and line terminators as `trim` strips them (sections 12.2 and 12.3 of ECMA-262); all of
      them are single units. */
  predicate IsSpace(c: Unit) {
    || 0x09 <= c <= 0x0D || c == 0x20 || c == 0xA0 || c == 0x1680 || 0x2000 <= c <= 0x200A
    || c == 0x2028 || c == 0x2029 || c == 0x202F || c == 0x205F || c == 0x3000 || c == 0xFEFF
  }

  function TrimStart(s: Text): (r: Text)
    ensures |r| > 0 ==> !IsSpace(r[0])
  {
    if s != [] && IsSpace(s[0]) then TrimStart(s[1..]) else s
  }

  function TrimEnd(s: Text): (r: Text)
    ensures |r| > 0 ==> !IsSpace(r[|r| - 1]) && r <= s
  {
    if s != [] && IsSpace(s[|s| - 1]) then TrimEnd(s[..|s| - 1]) else s
  }

  function Trim(s: Text): (r: Text)
    ensures |r| > 0 ==> !IsSpace(r[0]) && !IsSpace(r[|r| - 1])
  {
    TrimEnd(TrimStart(s))
  }

  ghost predicate AllSpace(s: Text) {
    forall c | c in s :: IsSpace(c)
  }

  lemma {:induction false} TrimStartSplits(s: Text) returns (a: Text)
    ensures AllSpace(a) && s == a + TrimStart(s)
  {
    hide IsSpace;
    if s != [] && IsSpace(s[0]) {
      var rest := TrimStartSplits(s[1..]);
      a := [s[0]] + rest;
      assert s == [s[0]] + s[1..];
    } else {
      a := [];
    }
  }

  lemma {:induction false} TrimEndSplits(s: Text) returns (b: Text)
    ensures AllSpace(b) && s == TrimEnd(s) + b
  {
    hide IsSpace;
    if s != [] && IsSpace(s[|s| - 1]) {
      var rest := TrimEndSplits(s[..|s| - 1]);
      b := rest + [s[|s| - 1]];
      assert s == s[..|s| - 1] + [s[|s| - 1]];
    } else {
      b := [];
    }
  }

  /** Trimming removes a leading and a trailing run of white space and nothing else; what is left is empty or
      starts and ends with another unit. */
  lemma TrimIs(s: Text) returns (a: Text, b: Text)
    ensures s == a + Trim(s) + b && AllSpace(a) && AllSpace(b)
    ensures Trim(s) != [] ==> !IsSpace(Trim(s)[0]) && !IsSpace(Trim(s)[|Trim(s)| - 1])
  {
    hide IsSpace, TrimStart, TrimEnd;
    a := TrimStartSplits(s);
    b := TrimEndSplits(TrimStart(s));
  }

  // -------------------------------------------------------------- splitting

  function IndexOf(s: Text, sep: Unit): (i: nat)
    requires sep in s
    ensures i < |s| && s[i] == sep && sep !in s[..i]
  {
    if s[0] == sep then 0 else 1 + IndexOf(s[1..], sep)
  }

  /** The parts of a text between separators. */
  function Split(s: Text, sep: Unit): (r: seq<Text>)
    ensures |r| >= 1 && (|r| == 1 <==> sep !in s)
    decreases |s|
  {
    if sep !in s then [s] else [s[..IndexOf(s, sep)]] + Split(s[IndexOf(s, sep) + 1..], sep)
  }

  function JoinWith(parts: seq<Text>, sep: Unit): Text
    requires |parts| >= 1
  {
    if |parts| == 1 then parts[0] else parts[0] + [sep] + JoinWith(parts[1..], sep)
  }

  lemma JoinCons(a: Text, parts: seq<Text>, sep: Unit)
    requires |parts| >= 1
    ensures JoinWith([a] + parts, sep) == a + [sep] + JoinWith(parts, sep)
  {
    assert ([a] + parts)[1..] == parts;
  }

  /** Splitting is undone by joining, and no part holds the separator. */
  lemma {:induction false} SplitJoin(s: Text, sep: Unit)
    ensures JoinWith(Split(s, sep), sep) == s
    ensures forall part | part in Split(s, sep) :: sep !in part
    decreases |s|
  {
    hide JoinWith, IndexOf;
    if sep in s {
      var i := IndexOf(s, sep);
      var rest := Split(s[i + 1..], sep);
      SplitJoin(s[i + 1..], sep);
      JoinCons(s[..i], rest, sep);
      assert s[..i] + [sep] + s[i + 1..] == s;
    } else {
      JoinOne(s, sep);
    }
  }

  lemma JoinOne(s: Text, sep: Unit)
    ensures JoinWith([s], sep) == s
  {
  }

  lemma SplitCons(a: Text, sep: Unit, rest: Text)
    requires sep !in a
    ensures Split(a + [sep] + rest, sep) == [a] + Split(rest, sep)
  {
    var s := a + [sep] + rest;
    assert s[|a|] == sep;
    var i := IndexOf(s, sep);
    assert i == |a|;
    assert s[..i] == a && s[i + 1..] == rest;
  }

  lemma SplitTwo(a: Text, sep: Unit, b: Text)
    requires sep !in a && sep !in b
    ensures Split(a + [sep] + b, sep) == [a, b]
  {
    var s := a + [sep] + b;
    assert s[|a|] == sep;
    var i := IndexOf(s, sep);
    assert i == |a|;
    assert s[..i] == a && s[i + 1..] == b;
  }

  /** The text is `r`, or ends in `r` after a separator. */
  ghost predicate EndsIn(s: Text, sep: Unit, r: Text) {
    s == r || exists a: Text :: s == a + [sep] + r
  }

  // A separator followed by text without one is at or after the first separator.
  lemma EndsInRest(s: Text, sep: Unit, r: Text)
    requires sep in s && sep !in r
    ensures EndsIn(s, sep, r) <==> EndsIn(s[IndexOf(s, sep) + 1..], sep, r)
  {
    hide IndexOf;
    var i := IndexOf(s, sep);
    if EndsIn(s[i + 1..], sep, r) {
      EndsInWhole(s, i, sep, r);
    }
    if EndsIn(s, sep, r) && s != r {
      var a: Text :| s == a + [sep] + r;
      AfterFirst(s, i, a, sep, r);
    }
  }

  lemma EndsInWhole(s: Text, i: nat, sep: Unit, r: Text)
    requires i < |s| && s[i] == sep && EndsIn(s[i + 1..], sep, r)
    ensures EndsIn(s, sep, r)
  {
    var rest := s[i + 1..];
    assert s == s[..i] + [sep] + rest;
    if rest != r {
      var a: Text :| rest == a + [sep] + r;
      assert s == (s[..i] + [sep] + a) + [sep] + r;
    }
  }

  lemma AfterFirst(s: Text, i: nat, a: Text, sep: Unit, r: Text)
    requires s == a + [sep] + r && i < |s| && s[i] == sep && sep !in s[..i] && sep !in r
    ensures EndsIn(s[i + 1..], sep, r)
  {
    assert s[|a|] == sep && forall k | |a| < k < |s| :: s[k] == r[k - |a| - 1];
    assert i <= |a|;
    if i < |a| {
      assert s[i + 1..] == a[i + 1..] + [sep] + r;
    } else {
      assert s[i + 1..] == r;
    }
  }

  /** The last part is what follows the last separator. */
  lemma {:induction false} SplitLast(s: Text, sep: Unit, r: Text)
    ensures Split(s, sep)[|Split(s, sep)| - 1] == r <==> sep !in r && EndsIn(s, sep, r)
    decreases |s|
  {
    hide EndsIn, IndexOf;
    if sep in s {
      var rest := s[IndexOf(s, sep) + 1..];
      SplitLast(rest, sep, r);
      if sep !in r {
        EndsInRest(s, sep, r);
      }
    } else {
      NoEnd(s, sep, r);
    }
  }

  lemma NoEnd(s: Text, sep: Unit, r: Text)
    requires sep !in s
    ensures EndsIn(s, sep, r) <==> s == r
  {
  }

  // ---------------------------------------------------------------- reading

  /** The integer `Number` reads from a text, if it reads one. */
  type Reader = Text -> Option<int>

  predicate ReadsWithin(num: Reader, part: Text, max: int) {
    num(part).Some? && 0 <= num(part).value <= max
  }
}
