/**
 * The Python `str` operations the modelled code relies on, on strings as
 * sequences of characters: `split` on one character, `'sep'.join`, `in` on
 * substrings, `startswith`/`endswith`, `rfind`, `strip`, `lower`, `replace`
 * of one character, ordering comparison, `str()` of integers and `int()`
 * of decimal text.
 */
module Text {
  import opened Wrappers

  // ---------------------------------------------------------------------
  // split / join on a single separator character

  /** `s.split(c)`: the maximal pieces between occurrences of `c` (never empty). */
  function Split(s: string, c: char): (parts: seq<string>)
    ensures |parts| >= 1
    decreases |s|
  {
    if |s| == 0 then [""]
    else if s[0] == c then [""] + Split(s[1..], c)
    else
      var rest := Split(s[1..], c);
      [[s[0]] + rest[0]] + rest[1..]
  }

  /** `c.join(parts)`. */
  function Join(parts: seq<string>, c: char): string
    decreases |parts|
  {
    if |parts| == 0 then ""
    else if |parts| == 1 then parts[0]
    else parts[0] + [c] + Join(parts[1..], c)
  }

  lemma JoinCons(x: string, parts: seq<string>, c: char)
    requires |parts| >= 1
    ensures Join([x] + parts, c) == x + [c] + Join(parts, c)
  {
    assert ([x] + parts)[1..] == parts;
  }

  lemma {:induction false} JoinSnoc(parts: seq<string>, x: string, c: char)
    requires |parts| >= 1
    ensures Join(parts + [x], c) == Join(parts, c) + [c] + x
    decreases |parts|
  {
    if |parts| == 1 {
      assert (parts + [x])[1..] == [x];
    } else {
      assert (parts + [x])[1..] == parts[1..] + [x];
      JoinSnoc(parts[1..], x, c);
    }
  }

  lemma JoinUnsnoc(parts: seq<string>, c: char)
    requires |parts| >= 2
    ensures Join(parts, c) == Join(parts[..|parts| - 1], c) + [c] + parts[|parts| - 1]
  {
    assert parts == parts[..|parts| - 1] + [parts[|parts| - 1]];
    JoinSnoc(parts[..|parts| - 1], parts[|parts| - 1], c);
  }

  /** Regrouping a string built from three parts and two separators. */
  lemma Regroup(a: string, b: string, z: string, c: char)
    ensures a + [c] + (b + [c] + z) == a + [c] + b + [c] + z
  {
    var l, r := a + [c] + (b + [c] + z), a + [c] + b + [c] + z;
    assert |l| == |r|;
    forall i | 0 <= i < |l| ensures l[i] == r[i] {
    }
  }

  /** Joining the pieces of a split gives back the original string. */
  lemma {:induction false} JoinSplit(s: string, c: char)
    ensures Join(Split(s, c), c) == s
    decreases |s|
  {
    if |s| == 0 {
    } else if s[0] == c {
      JoinSplit(s[1..], c);
      JoinCons("", Split(s[1..], c), c);
      assert s == [c] + s[1..];
    } else {
      var rest := Split(s[1..], c);
      JoinSplit(s[1..], c);
      if |rest| == 1 {
        assert s == [s[0]] + s[1..];
      } else {
        assert Split(s, c) == [[s[0]] + rest[0]] + rest[1..];
        JoinCons([s[0]] + rest[0], rest[1..], c);
        assert rest == [rest[0]] + rest[1..];
        JoinCons(rest[0], rest[1..], c);
        Reassociate([s[0]], rest[0], [c] + Join(rest[1..], c));
        assert s == [s[0]] + s[1..];
      }
    }
  }

  lemma Reassociate(a: string, b: string, z: string)
    ensures a + b + z == a + (b + z)
  {
  }

  /** No piece of a split contains the separator. */
  lemma {:induction false} SplitPiecesOmitSeparator(s: string, c: char)
    ensures forall i :: 0 <= i < |Split(s, c)| ==> c !in Split(s, c)[i]
    decreases |s|
  {
    if |s| > 0 {
      SplitPiecesOmitSeparator(s[1..], c);
    }
  }

  /** A split has at least two pieces exactly when the separator occurs. */
  lemma {:induction false} SplitHasTwoPiecesIff(s: string, c: char)
    ensures |Split(s, c)| >= 2 <==> c in s
    decreases |s|
  {
    if |s| > 0 {
      SplitHasTwoPiecesIff(s[1..], c);
      assert s == [s[0]] + s[1..];
    }
  }

  /** A split has one piece more than there are separators. */
  lemma {:induction false} SplitLength(s: string, c: char)
    ensures |Split(s, c)| == 1 + multiset(s)[c]
    decreases |s|
  {
    if |s| > 0 {
      SplitLength(s[1..], c);
      assert s == [s[0]] + s[1..];
      assert multiset(s) == multiset{s[0]} + multiset(s[1..]);
    }
  }

  lemma {:induction false} SplitOfSeparatorFree(x: string, c: char)
    requires c !in x
    ensures Split(x, c) == [x]
    decreases |x|
  {
    if |x| > 0 {
      SplitOfSeparatorFree(x[1..], c);
      assert x == [x[0]] + x[1..];
    }
  }

  lemma {:induction false} SplitAfterPrefix(x: string, y: string, c: char)
    requires c !in x
    ensures Split(x + [c] + y, c) == [x] + Split(y, c)
    decreases |x|
  {
    var s := x + [c] + y;
    if |x| == 0 {
      assert s[1..] == y;
    } else {
      assert s[1..] == x[1..] + [c] + y;
      SplitAfterPrefix(x[1..], y, c);
      assert [x[0]] + x[1..] == x;
    }
  }

  /** Splitting a join of separator-free pieces gives back the pieces. */
  lemma {:induction false} SplitJoin(parts: seq<string>, c: char)
    requires |parts| >= 1
    requires forall i :: 0 <= i < |parts| ==> c !in parts[i]
    ensures Split(Join(parts, c), c) == parts
    decreases |parts|
  {
    if |parts| == 1 {
      SplitOfSeparatorFree(parts[0], c);
    } else {
      SplitJoin(parts[1..], c);
      SplitAfterPrefix(parts[0], Join(parts[1..], c), c);
      assert parts == [parts[0]] + parts[1..];
    }
  }

  // ---------------------------------------------------------------------
  // searching

  /** Index of the first `c` in `s`, or `|s|` when there is none. */
  function IndexOf<T(==)>(s: seq<T>, c: T): (i: nat)
    ensures i <= |s|
    ensures i < |s| ==> s[i] == c
    ensures forall j :: 0 <= j < i ==> s[j] != c
    decreases |s|
  {
    if |s| == 0 then 0
    else if s[0] == c then 0
    else 1 + IndexOf(s[1..], c)
  }

  /** The first piece of a split is the text before the first separator. */
  lemma {:induction false} SplitFirstPiece(s: string, c: char)
    ensures Split(s, c)[0] == s[..IndexOf(s, c)]
    decreases |s|
  {
    if |s| > 0 && s[0] != c {
      SplitFirstPiece(s[1..], c);
    }
  }

  /** The second piece of a split is the first piece of what follows the first separator. */
  lemma {:induction false} SplitSecondPiece(s: string, c: char)
    requires c in s
    ensures |Split(s, c)| >= 2
    ensures Split(s, c)[1] == Split(s[IndexOf(s, c) + 1..], c)[0]
    decreases |s|
  {
    SplitHasTwoPiecesIff(s, c);
    if s[0] != c {
      assert c in s[1..] by {
        var k :| 0 <= k < |s| && s[k] == c;
        assert s[1..][k - 1] == c;
      }
      SplitSecondPiece(s[1..], c);
      assert s[1..][IndexOf(s[1..], c) + 1..] == s[IndexOf(s, c) + 1..];
    }
  }

  /** `s.rfind(c)`: the last index of `c`, or -1. */
  function RFind(s: string, c: char): (r: int)
    ensures -1 <= r < |s|
    ensures r >= 0 ==> s[r] == c
    ensures forall j :: r < j < |s| ==> s[j] != c
    decreases |s|
  {
    if |s| == 0 then -1
    else if s[|s| - 1] == c then |s| - 1
    else RFind(s[..|s| - 1], c)
  }

  predicate StartsWith(s: string, p: string) {
    |p| <= |s| && s[..|p|] == p
  }

  predicate EndsWith(s: string, p: string) {
    |p| <= |s| && s[|s| - |p|..] == p
  }

  /** Python's `sub in s`. */
  predicate Contains(s: string, sub: string) {
    exists i | 0 <= i <= |s| - |sub| :: OccursAt(s, sub, i)
  }

  predicate OccursAt(s: string, sub: string, i: nat)
    requires i + |sub| <= |s|
  {
    s[i..i + |sub|] == sub
  }

  lemma ContainsMiddle(a: string, sub: string, b: string)
    ensures Contains(a + sub + b, sub)
  {
    var s := a + sub + b;
    assert OccursAt(s, sub, |a|);
  }

  lemma ContainsWithin(s: string, sub: string, outer: string, k: nat)
    requires Contains(s, sub)
    requires k + |s| <= |outer| && outer[k..k + |s|] == s
    ensures Contains(outer, sub)
  {
    var i :| 0 <= i <= |s| - |sub| && OccursAt(s, sub, i);
    forall j | 0 <= j < |sub|
      ensures outer[k + i + j] == sub[j]
    {
      assert outer[k + i + j] == outer[k..k + |s|][i + j];
      assert s[i + j] == s[i..i + |sub|][j];
    }
    assert outer[k + i..k + i + |sub|] == sub;
    assert OccursAt(outer, sub, k + i);
  }

  lemma ContainsAppend(a: string, b: string, sub: string)
    requires Contains(a, sub)
    ensures Contains(a + b, sub)
  {
    var i :| 0 <= i <= |a| - |sub| && OccursAt(a, sub, i);
    assert (a + b)[i..i + |sub|] == a[i..i + |sub|];
    assert OccursAt(a + b, sub, i);
  }

  lemma ContainsPrepend(a: string, b: string, sub: string)
    requires Contains(b, sub)
    ensures Contains(a + b, sub)
  {
    var i :| 0 <= i <= |b| - |sub| && OccursAt(b, sub, i);
    assert (a + b)[|a| + i..|a| + i + |sub|] == b[i..i + |sub|];
    assert OccursAt(a + b, sub, |a| + i);
  }

  lemma ContainsSelf(s: string)
    ensures Contains(s, s)
  {
    assert OccursAt(s, s, 0);
  }

  lemma ContainsTransitive(s: string, mid: string, sub: string)
    requires Contains(s, mid) && Contains(mid, sub)
    ensures Contains(s, sub)
  {
    var k :| 0 <= k <= |s| - |mid| && OccursAt(s, mid, k);
    ContainsWithin(mid, sub, s, k);
  }

  // ---------------------------------------------------------------------
  // strip / lower / replace

  /** The characters Python's `str.isspace()` accepts below U+0100. */
  predicate IsSpace(ch: char) {
    ch == ' ' || (9 <= ch as int <= 13) || (28 <= ch as int <= 31) || ch as int == 0x85 || ch as int == 0xA0
  }

  /** Length of the run of whitespace that `s` starts with. */
  function LeadingSpaces(s: string): (k: nat)
    ensures k <= |s|
    decreases |s|
  {
    if |s| > 0 && IsSpace(s[0]) then 1 + LeadingSpaces(s[1..]) else 0
  }

  /** The leading run is all whitespace and as long as it can be. */
  lemma {:induction false} LeadingSpacesSpec(s: string)
    ensures forall j :: 0 <= j < LeadingSpaces(s) ==> IsSpace(s[j])
    decreases |s|
  {
    if |s| > 0 && IsSpace(s[0]) {
      LeadingSpacesSpec(s[1..]);
    }
  }

  lemma {:induction false} LeadingSpacesStop(s: string)
    ensures LeadingSpaces(s) == |s| || !IsSpace(s[LeadingSpaces(s)])
    decreases |s|
  {
    if |s| > 0 && IsSpace(s[0]) {
      LeadingSpacesStop(s[1..]);
    }
  }

  /** Length of the run of whitespace that `s` ends with. */
  function TrailingSpaces(s: string): (k: nat)
    ensures k <= |s|
    decreases |s|
  {
    if |s| > 0 && IsSpace(s[|s| - 1]) then 1 + TrailingSpaces(s[..|s| - 1]) else 0
  }

  /** The trailing run is all whitespace and as long as it can be. */
  lemma {:induction false} TrailingSpacesSpec(s: string)
    ensures forall j :: |s| - TrailingSpaces(s) <= j < |s| ==> IsSpace(s[j])
    decreases |s|
  {
    if |s| > 0 && IsSpace(s[|s| - 1]) {
      TrailingSpacesSpec(s[..|s| - 1]);
    }
  }

  lemma {:induction false} TrailingSpacesStop(s: string)
    ensures TrailingSpaces(s) == |s| || !IsSpace(s[|s| - TrailingSpaces(s) - 1])
    decreases |s|
  {
    if |s| > 0 && IsSpace(s[|s| - 1]) {
      TrailingSpacesStop(s[..|s| - 1]);
    }
  }

  /** `s.strip()`. */
  function Strip(s: string): string {
    var t := s[LeadingSpaces(s)..];
    t[..|t| - TrailingSpaces(t)]
  }

  /**
   * `strip()` leaves text that neither starts nor ends with whitespace:
   * it is a contiguous piece of the input, and applying it twice changes
   * nothing more.
   */
  lemma StripShape(s: string)
    ensures |Strip(s)| <= |s|
    ensures Strip(s) == s[LeadingSpaces(s)..LeadingSpaces(s) + |Strip(s)|]
    ensures Strip(s) == [] || (!IsSpace(Strip(s)[0]) && !IsSpace(Strip(s)[|Strip(s)| - 1]))
    ensures Strip(Strip(s)) == Strip(s)
  {
    StripEnds(s);
    StripUnpadded(Strip(s));
  }

  /** What `strip()` keeps starts and ends with a non-space character. */
  lemma StripEnds(s: string)
    ensures |Strip(s)| <= |s|
    ensures Strip(s) == s[LeadingSpaces(s)..LeadingSpaces(s) + |Strip(s)|]
    ensures Strip(s) == [] || (!IsSpace(Strip(s)[0]) && !IsSpace(Strip(s)[|Strip(s)| - 1]))
  {
    var t := s[LeadingSpaces(s)..];
    LeadingSpacesStop(s);
    TrailingSpacesStop(t);
  }
  /** Text that neither starts nor ends with whitespace is left unchanged. */
  lemma StripUnpadded(s: string)
    requires s == [] || (!IsSpace(s[0]) && !IsSpace(s[|s| - 1]))
    ensures Strip(s) == s
  {
    if s != [] {
      assert LeadingSpaces(s) == 0;
      assert TrailingSpaces(s) == 0;
    }
  }

  function LowerChar(ch: char): char {
    if 'A' <= ch <= 'Z' then (ch as int + 32) as char else ch
  }

  /** `s.lower()` on ASCII letters. */
  function Lower(s: string): (r: string)
    ensures |r| == |s|
    ensures forall i :: 0 <= i < |s| ==> r[i] == LowerChar(s[i])
  {
    seq(|s|, i requires 0 <= i < |s| => LowerChar(s[i]))
  }

  /** Lowercasing keeps whitespace where it is. */
  lemma {:induction false} LowerKeepsLeadingSpaces(s: string)
    ensures LeadingSpaces(Lower(s)) == LeadingSpaces(s)
    decreases |s|
  {
    if |s| > 0 {
      assert Lower(s)[1..] == Lower(s[1..]);
      LowerKeepsLeadingSpaces(s[1..]);
    }
  }

  lemma {:induction false} LowerKeepsTrailingSpaces(s: string)
    ensures TrailingSpaces(Lower(s)) == TrailingSpaces(s)
    decreases |s|
  {
    if |s| > 0 {
      assert Lower(s)[..|s| - 1] == Lower(s[..|s| - 1]);
      LowerKeepsTrailingSpaces(s[..|s| - 1]);
    }
  }

  /** `strip` and `lower` commute. */
  lemma StripLowerCommute(s: string)
    ensures Strip(Lower(s)) == Lower(Strip(s))
  {
    LowerKeepsLeadingSpaces(s);
    var t := s[LeadingSpaces(s)..];
    assert Lower(s)[LeadingSpaces(s)..] == Lower(t);
    LowerKeepsTrailingSpaces(t);
  }

  /** `s.replace(a, b)` for single characters. */
  function ReplaceChar(s: string, a: char, b: char): (r: string)
    ensures |r| == |s|
    ensures forall i :: 0 <= i < |s| ==> r[i] == (if s[i] == a then b else s[i])
  {
    seq(|s|, i requires 0 <= i < |s| => if s[i] == a then b else s[i])
  }

  // ---------------------------------------------------------------------
  // ordering

  /** Python's `a < b` on strings: lexicographic by code point. */
  predicate LexLess(a: string, b: string)
    decreases |a|
  {
    if |a| == 0 then |b| > 0
    else if |b| == 0 then false
    else if a[0] != b[0] then a[0] < b[0]
    else LexLess(a[1..], b[1..])
  }

  lemma {:induction false} LexLessIrreflexive(a: string)
    ensures !LexLess(a, a)
    decreases |a|
  {
    if |a| > 0 { LexLessIrreflexive(a[1..]); }
  }

  lemma {:induction false} LexLessTransitive(a: string, b: string, c: string)
    requires LexLess(a, b) && LexLess(b, c)
    ensures LexLess(a, c)
    decreases |a|
  {
    if |a| > 0 && |b| > 0 && |c| > 0 && a[0] == b[0] && b[0] == c[0] {
      LexLessTransitive(a[1..], b[1..], c[1..]);
    }
  }

  lemma {:induction false} LexLessTotal(a: string, b: string)
    ensures a == b || LexLess(a, b) || LexLess(b, a)
    decreases |a|
  {
    if |a| > 0 && |b| > 0 && a[0] == b[0] {
      LexLessTotal(a[1..], b[1..]);
      if a[1..] == b[1..] {
        assert a == [a[0]] + a[1..] && b == [b[0]] + b[1..];
      }
    }
  }

  /**
   * Python's `max` under a string key: the index of the first element whose
   * key no other key exceeds.
   */
  function FirstMaxStr(keys: seq<string>): (i: nat)
    requires |keys| > 0
    ensures i < |keys|
    ensures forall j :: 0 <= j < |keys| ==> !LexLess(keys[i], keys[j])
    ensures forall j :: 0 <= j < i ==> LexLess(keys[j], keys[i])
    decreases |keys|
  {
    if |keys| == 1 then
      LexLessIrreflexive(keys[0]);
      0
    else
      var init := keys[..|keys| - 1];
      var p := FirstMaxStr(init);
      var last := keys[|keys| - 1];
      if LexLess(keys[p], last) then
        assert forall j :: 0 <= j < |keys| - 1 ==> !LexLess(last, keys[j]) by {
          forall j | 0 <= j < |keys| - 1 ensures !LexLess(last, keys[j]) {
            assert init[j] == keys[j];
            LexLessTotal(keys[p], keys[j]);
            if LexLess(last, keys[j]) {
              LexLessTransitive(keys[p], last, keys[j]);
            }
          }
        }
        assert forall j :: 0 <= j < |keys| - 1 ==> LexLess(keys[j], last) by {
          forall j | 0 <= j < |keys| - 1 ensures LexLess(keys[j], last) {
            assert init[j] == keys[j];
            LexLessTotal(keys[j], keys[p]);
            if LexLess(keys[j], keys[p]) {
              LexLessTransitive(keys[j], keys[p], last);
            }
          }
        }
        LexLessIrreflexive(last);
        |keys| - 1
      else
        assert forall j :: 0 <= j < |keys| - 1 ==> init[j] == keys[j];
        p
  }

  // ---------------------------------------------------------------------
  // integers as text

  function DigitChar(d: nat): char
    requires d < 10
  {
    ('0' as int + d) as char
  }

  /** `str(n)` for a natural number. */
  function NatToString(n: nat): string
    decreases n
  {
    if n < 10 then [DigitChar(n)] else NatToString(n / 10) + [DigitChar(n % 10)]
  }

  /** `str(i)` for an integer. */
  function IntToString(i: int): string {
    if i < 0 then "-" + NatToString(-i) else NatToString(i)
  }

  predicate IsDigit(ch: char) {
    '0' <= ch <= '9'
  }

  predicate AllDigits(s: string) {
    forall i :: 0 <= i < |s| ==> IsDigit(s[i])
  }

  function DigitsValue(s: string): nat
    requires AllDigits(s)
    decreases |s|
  {
    if |s| == 0 then 0
    else DigitsValue(s[..|s| - 1]) * 10 + (s[|s| - 1] as int - '0' as int)
  }

  lemma {:induction false} DigitsOfNatToString(n: nat)
    ensures AllDigits(NatToString(n)) && |NatToString(n)| >= 1
    ensures DigitsValue(NatToString(n)) == n
    decreases n
  {
    if n >= 10 {
      DigitsOfNatToString(n / 10);
      var s := NatToString(n);
      assert s[..|s| - 1] == NatToString(n / 10);
    }
  }

  /** Decimal digits with single `_` separators between them, as `int()` reads "1_000". */
  predicate DigitGroups(s: string) {
    |s| > 0 && IsDigit(s[0]) && IsDigit(s[|s| - 1])
    && (forall i :: 0 <= i < |s| ==> IsDigit(s[i]) || s[i] == '_')
    && (forall i :: 0 <= i < |s| - 1 && s[i] == '_' ==> IsDigit(s[i + 1]))
  }

  /** The digits of `s` with the `_` separators dropped. */
  function DropSeparators(s: string): (r: string)
    ensures (forall i :: 0 <= i < |s| ==> IsDigit(s[i]) || s[i] == '_') ==> AllDigits(r)
    ensures AllDigits(s) ==> r == s
    decreases |s|
  {
    if |s| == 0 then "" else (if s[0] == '_' then "" else [s[0]]) + DropSeparators(s[1..])
  }

  /**
   * `int(s)` on ASCII decimal text: surrounding whitespace, one sign and
   * single `_` separators between digits are allowed; anything else raises
   * (None here).
   */
  function ParseInt(s: string): Option<int> {
    var t := Strip(s);
    if |t| > 0 && (t[0] == '-' || t[0] == '+') then
      var body := t[1..];
      if DigitGroups(body) then
        var n: int := DigitsValue(DropSeparators(body));
        var v: int := if t[0] == '-' then 0 - n else n;
        Some(v)
      else None
    else if DigitGroups(t) then Some(DigitsValue(DropSeparators(t)))
    else None
  }

  /**
   * `int()` on text made of digits and `_`: it succeeds exactly when the
   * `_` separate groups of digits (none first, none last, never two in a
   * row), and then the value is that of the digits alone.
   */
  lemma ParseIntSeparators(s: string)
    requires forall i :: 0 <= i < |s| ==> IsDigit(s[i]) || s[i] == '_'
    ensures ParseInt(s).Some? <==> DigitGroups(s)
    ensures DigitGroups(s) ==> ParseInt(s) == Some(DigitsValue(DropSeparators(s)))
    ensures |s| > 0 && (s[0] == '_' || s[|s| - 1] == '_') ==> ParseInt(s) == None
    ensures forall i :: 0 <= i < |s| - 1 && s[i] == '_' && s[i + 1] == '_' ==> ParseInt(s) == None
  {
    if s != [] {
      assert IsDigit(s[0]) || s[0] == '_';
      assert IsDigit(s[|s| - 1]) || s[|s| - 1] == '_';
    }
    StripUnpadded(s);
  }

  /** `int(str(n))` gives `n` back. */
  lemma ParseIntOfNatToString(n: nat)
    ensures ParseInt(NatToString(n)) == Some(n)
  {
    var s := NatToString(n);
    DigitsOfNatToString(n);
    assert !IsSpace(s[0]) && !IsSpace(s[|s| - 1]);
    StripUnpadded(s);
  }

  /**
   * A number printed between a known head and a known tail reads back:
   * the text starts with the head, ends with the tail, and `int()` of what
   * lies between gives the number.
   */
  lemma NumberReadsBack(head: string, n: nat, tail: string)
    ensures var t := head + NatToString(n) + tail;
      |head| + |tail| < |t| && t[..|head|] == head && t[|t| - |tail|..] == tail
      && ParseInt(t[|head|..|t| - |tail|]) == Some(n)
  {
    var t := head + NatToString(n) + tail;
    assert t[|head|..|t| - |tail|] == NatToString(n);
    ParseIntOfNatToString(n);
  }

  // ---------------------------------------------------------------------
  // joining with a multi-character separator

  /** `sep.join(parts)` for a separator string. */
  function JoinWith(parts: seq<string>, sep: string): string
    decreases |parts|
  {
    if |parts| == 0 then ""
    else if |parts| == 1 then parts[0]
    else parts[0] + sep + JoinWith(parts[1..], sep)
  }

  /** Every joined part occurs in the joined text at a known offset. */
  lemma {:induction false} JoinWithContainsPart(parts: seq<string>, sep: string, i: nat)
    requires i < |parts|
    ensures Contains(JoinWith(parts, sep), parts[i])
    decreases |parts|
  {
    if |parts| == 1 {
      ContainsMiddle("", parts[0], "");
      assert "" + parts[0] + "" == parts[0];
    } else if i == 0 {
      ContainsMiddle("", parts[0], sep + JoinWith(parts[1..], sep));
      assert "" + parts[0] + (sep + JoinWith(parts[1..], sep)) == JoinWith(parts, sep);
    } else {
      JoinWithContainsPart(parts[1..], sep, i - 1);
      var whole := JoinWith(parts, sep);
      var k := |parts[0] + sep|;
      assert whole[k..k + |JoinWith(parts[1..], sep)|] == JoinWith(parts[1..], sep);
      ContainsWithin(JoinWith(parts[1..], sep), parts[i], whole, k);
    }
  }
}
