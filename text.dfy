/**
 * The JavaScript string built-ins the dashboard relies on, over `seq<char>`:
 * `trim`, `toLowerCase` (ASCII letters), `indexOf(...) >= 0`, `split` on one
 * character, `join`, `padStart(2, "0")`, `String(n)` for integers,
 * `parseInt(s, 10)` and `parseFloat` on plain decimals, and the `<` order
 * on strings.
 */
module Text {
  import opened Wrappers

  // ------------------------------------------------------------------
  // Whitespace and trimming
  // ------------------------------------------------------------------

  /** ECMAScript WhiteSpace and LineTerminator code points (what `trim` and `\s` remove). */
  predicate IsSpace(c: char) {
    c == ' ' || c == '\t' || c == '\n' || c == '\r' || c == '\U{B}' || c == '\U{C}'
    || c == '\U{A0}' || c == '\U{1680}' || ('\U{2000}' <= c <= '\U{200A}')
    || c == '\U{2028}' || c == '\U{2029}' || c == '\U{202F}' || c == '\U{205F}'
    || c == '\U{3000}' || c == '\U{FEFF}'
  }

  predicate IsBlank(s: string) {
    forall k :: 0 <= k < |s| ==> IsSpace(s[k])
  }

  /** `s.replace(/^\s+/, "")`, the leading-whitespace half of `trim`. */
  function TrimStart(s: string): (r: string)
    ensures |r| <= |s| && r == s[|s| - |r|..]
    ensures forall k :: 0 <= k < |s| - |r| ==> IsSpace(s[k])
    ensures r == [] || !IsSpace(r[0])
  {
    if s != [] && IsSpace(s[0]) then TrimStart(s[1..]) else s
  }

  /** The trailing-whitespace half of `trim`. */
  function TrimEnd(s: string): (r: string)
    ensures |r| <= |s| && r == s[..|r|]
    ensures forall k :: |r| <= k < |s| ==> IsSpace(s[k])
    ensures r == [] || !IsSpace(r[|r| - 1])
  {
    if s != [] && IsSpace(s[|s| - 1]) then TrimEnd(s[..|s| - 1]) else s
  }

  /** `String.prototype.trim`. */
  function Trim(s: string): (r: string) {
    TrimEnd(TrimStart(s))
  }

  /** `s.trim() !== ""` holds exactly when `s` has a non-space character. */
  lemma TrimEmptyIffBlank(s: string)
    ensures Trim(s) == [] <==> IsBlank(s)
  {
    var t := TrimStart(s);
    assert s[..|s| - |t|] + t == s;
    if t != [] {
      assert s[|s| - |t|] == t[0];
      TrimEndKeepsHead(t);
    }
  }

  lemma TrimEndKeepsHead(s: string)
    requires s != [] && !IsSpace(s[0])
    ensures TrimEnd(s) != []
    decreases |s|
  {
    if IsSpace(s[|s| - 1]) {
      TrimEndKeepsHead(s[..|s| - 1]);
    }
  }

  lemma TrimStartNoSpace(s: string)
    requires s == [] || !IsSpace(s[0])
    ensures TrimStart(s) == s
  {
  }

  /** A string that trimming leaves alone is left alone by each half of the trim. */
  lemma TrimmedFixed(s: string)
    requires Trim(s) == s
    ensures TrimStart(s) == s && TrimEnd(s) == s
  {
    TrimIdempotent(s);
    if s != [] {
      TrimStartNoSpace(s);
    }
  }

  /** Trimming is idempotent, and a trimmed string has no outer whitespace. */
  lemma TrimIdempotent(s: string)
    ensures Trim(Trim(s)) == Trim(s)
    ensures Trim(s) == [] || (!IsSpace(Trim(s)[0]) && !IsSpace(Trim(s)[|Trim(s)| - 1]))
  {
    var t := Trim(s);
    var u := TrimStart(s);
    if t != [] {
      assert t[0] == u[0];
      assert TrimStart(t) == t;
      assert TrimEnd(t) == t;
    }
  }

  // ------------------------------------------------------------------
  // Case and search
  // ------------------------------------------------------------------

  function LowerChar(c: char): (r: char)
    ensures 'A' <= c <= 'Z' ==> 'a' <= r <= 'z'
    ensures !('A' <= c <= 'Z') ==> r == c
  {
    if 'A' <= c <= 'Z' then (c as int + 32) as char else c
  }

  /** `toLowerCase`, on ASCII letters. */
  function Lower(s: string): (r: string)
    ensures |r| == |s|
    ensures forall k :: 0 <= k < |s| ==> r[k] == LowerChar(s[k])
  {
    if s == [] then [] else [LowerChar(s[0])] + Lower(s[1..])
  }

  lemma {:induction false} LowerAppend(a: string, b: string)
    ensures Lower(a + b) == Lower(a) + Lower(b)
  {
    var l := Lower(a + b);
    assert |l| == |Lower(a) + Lower(b)|;
    forall k | 0 <= k < |l| ensures l[k] == (Lower(a) + Lower(b))[k] {
      if k < |a| {
        assert (a + b)[k] == a[k];
      } else {
        assert (a + b)[k] == b[k - |a|];
      }
    }
  }

  /** Does `t` occur in `s` starting at position `i`? */
  predicate OccursAt(s: string, t: string, i: int) {
    0 <= i && i + |t| <= |s| && s[i..i + |t|] == t
  }

  /** `s.indexOf(t) >= 0`. */
  function Contains(s: string, t: string): (b: bool)
    decreases |s|
  {
    if |t| > |s| then false
    else if s[..|t|] == t then true
    else Contains(s[1..], t)
  }

  /** `indexOf` finds `t` exactly when it occurs somewhere in `s`. */
  lemma {:induction false} ContainsIff(s: string, t: string)
    ensures Contains(s, t) <==> exists i :: OccursAt(s, t, i)
    decreases |s|
  {
    if |t| > |s| {
    } else if s[..|t|] == t {
      assert OccursAt(s, t, 0);
    } else {
      ContainsIff(s[1..], t);
      forall i | OccursAt(s, t, i) ensures OccursAt(s[1..], t, i - 1) {
        assert i != 0;
        assert s[1..][i - 1..i - 1 + |t|] == s[i..i + |t|];
      }
      if Contains(s[1..], t) {
        var i :| OccursAt(s[1..], t, i);
        assert s[i + 1..i + 1 + |t|] == s[1..][i..i + |t|];
        assert OccursAt(s, t, i + 1);
      }
    }
  }

  /** An occurrence at a known position is found. */
  lemma ContainsAt(s: string, t: string, i: int)
    requires OccursAt(s, t, i)
    ensures Contains(s, t)
  {
    ContainsIff(s, t);
  }

  // ------------------------------------------------------------------
  // split and join on one character
  // ------------------------------------------------------------------

  /** Position of the first `c` in `s`, or `|s|` when there is none. */
  function FindChar(s: string, c: char): (i: nat)
    ensures i <= |s| && c !in s[..i]
    ensures i < |s| ==> s[i] == c
  {
    if s == [] then 0
    else if s[0] == c then 0
    else 1 + FindChar(s[1..], c)
  }

  /** `s.split(c)` for a one-character separator. */
  function Split(s: string, c: char): (parts: seq<string>)
    ensures |parts| >= 1
    ensures forall k :: 0 <= k < |parts| ==> c !in parts[k]
    decreases |s|
  {
    var i := FindChar(s, c);
    if i == |s| then [s] else [s[..i]] + Split(s[i + 1..], c)
  }

  /** Position of the first character of `s` in `seps`, or `|s|` when there is none. */
  function FindAny(s: string, seps: set<char>): (i: nat)
    ensures i <= |s|
    ensures forall k :: 0 <= k < i ==> s[k] !in seps
    ensures i < |s| ==> s[i] in seps
  {
    if s == [] then 0
    else if s[0] in seps then 0
    else 1 + FindAny(s[1..], seps)
  }

  /** `s.split(/[...]/)` for a character class of separators. */
  function SplitAny(s: string, seps: set<char>): (parts: seq<string>)
    ensures |parts| >= 1
    ensures forall k, j :: 0 <= k < |parts| && 0 <= j < |parts[k]| ==> parts[k][j] !in seps
    decreases |s|
  {
    var i := FindAny(s, seps);
    if i == |s| then [s] else [s[..i]] + SplitAny(s[i + 1..], seps)
  }

  /** `s.replace(/c/g, "")`: every `c` removed, the rest kept in order. */
  function RemoveChar(s: string, c: char): (r: string)
    ensures c !in r
    ensures |r| == |s| - CountChar(s, c)
  {
    if s == [] then [] else (if s[0] == c then [] else [s[0]]) + RemoveChar(s[1..], c)
  }

  /** `RemoveChar` leaves a string without `c` as it is. */
  lemma {:induction false} RemoveAbsent(s: string, c: char)
    requires c !in s
    ensures RemoveChar(s, c) == s
  {
    if s != [] {
      RemoveAbsent(s[1..], c);
    }
  }

  /** `parts.join(sep)`. */
  function Join(parts: seq<string>, sep: string): (s: string)
    ensures |parts| == 1 ==> s == parts[0]
  {
    if parts == [] then []
    else if |parts| == 1 then parts[0]
    else parts[0] + sep + Join(parts[1..], sep)
  }

  lemma SplitNoSep(s: string, c: char)
    requires c !in s
    ensures Split(s, c) == [s]
  {
  }

  lemma SplitCons(a: string, c: char, b: string)
    requires c !in a
    ensures Split(a + [c] + b, c) == [a] + Split(b, c)
  {
    var s := a + [c] + b;
    var i := FindChar(s, c);
    assert s[..|a|] == a;
    assert s[|a|] == c;
    assert i == |a|;
    assert s[i + 1..] == b;
  }

  /** Joining the pieces of a split gives back the original string. */
  lemma {:induction false} JoinSplit(s: string, c: char)
    ensures Join(Split(s, c), [c]) == s
    decreases |s|
  {
    var i := FindChar(s, c);
    if i < |s| {
      var rest := Split(s[i + 1..], c);
      JoinSplit(s[i + 1..], c);
      assert Split(s, c) == [s[..i]] + rest;
      assert ([s[..i]] + rest)[1..] == rest;
      assert Join(Split(s, c), [c]) == s[..i] + [c] + Join(rest, [c]);
      assert s == s[..i] + [c] + s[i + 1..];
    }
  }

  /** Splitting a join of separator-free pieces gives back the pieces. */
  lemma {:induction false} SplitJoin(parts: seq<string>, c: char)
    requires |parts| >= 1
    requires forall k :: 0 <= k < |parts| ==> c !in parts[k]
    ensures Split(Join(parts, [c]), c) == parts
  {
    if |parts| == 1 {
      SplitNoSep(parts[0], c);
    } else {
      SplitJoin(parts[1..], c);
      SplitCons(parts[0], c, Join(parts[1..], [c]));
    }
  }

  lemma SplitAnyNoSep(s: string, seps: set<char>)
    requires forall j :: 0 <= j < |s| ==> s[j] !in seps
    ensures SplitAny(s, seps) == [s]
  {
    assert FindAny(s, seps) == |s|;
  }

  lemma SplitAnyCons(a: string, c: char, b: string, seps: set<char>)
    requires c in seps
    requires forall j :: 0 <= j < |a| ==> a[j] !in seps
    ensures SplitAny(a + [c] + b, seps) == [a] + SplitAny(b, seps)
  {
    var s := a + [c] + b;
    var i := FindAny(s, seps);
    assert s[..|a|] == a;
    assert s[|a|] == c;
    assert i == |a|;
    assert s[i + 1..] == b;
  }

  /** Splitting on a character class a join of pieces free of that class gives back the pieces. */
  lemma {:induction false} SplitAnyJoin(parts: seq<string>, c: char, seps: set<char>)
    requires |parts| >= 1 && c in seps
    requires forall k, j :: 0 <= k < |parts| && 0 <= j < |parts[k]| ==> parts[k][j] !in seps
    ensures SplitAny(Join(parts, [c]), seps) == parts
  {
    if |parts| == 1 {
      SplitAnyNoSep(parts[0], seps);
    } else {
      SplitAnyJoin(parts[1..], c, seps);
      SplitAnyCons(parts[0], c, Join(parts[1..], [c]), seps);
    }
  }

  /** Number of occurrences of `c` in `s`. */
  function CountChar(s: string, c: char): nat {
    if s == [] then 0 else (if s[0] == c then 1 else 0) + CountChar(s[1..], c)
  }

  lemma {:induction false} CountCharAppend(a: string, b: string, c: char)
    ensures CountChar(a + b, c) == CountChar(a, c) + CountChar(b, c)
  {
    if a != [] {
      assert (a + b)[1..] == a[1..] + b;
      CountCharAppend(a[1..], b, c);
    } else {
      assert a + b == b;
    }
  }

  lemma {:induction false} CountCharAbsent(s: string, c: char)
    requires c !in s
    ensures CountChar(s, c) == 0
  {
    if s != [] {
      CountCharAbsent(s[1..], c);
    }
  }

  /** `split` yields one more piece than there are separators. */
  lemma {:induction false} SplitCount(s: string, c: char)
    ensures |Split(s, c)| == CountChar(s, c) + 1
    decreases |s|
  {
    var i := FindChar(s, c);
    if i == |s| {
      CountCharAbsent(s, c);
    } else {
      SplitCount(s[i + 1..], c);
      assert s == s[..i] + ([c] + s[i + 1..]);
      CountCharAppend(s[..i], [c] + s[i + 1..], c);
      CountCharAbsent(s[..i], c);
      assert ([c] + s[i + 1..])[1..] == s[i + 1..];
    }
  }

  // ------------------------------------------------------------------
  // Decimal numbers
  // ------------------------------------------------------------------

  predicate IsDigit(c: char) {
    '0' <= c <= '9'
  }

  predicate AllDigits(s: string) {
    forall k :: 0 <= k < |s| ==> IsDigit(s[k])
  }

  function DigitChar(d: nat): (c: char)
    requires d < 10
    ensures IsDigit(c)
  {
    ('0' as int + d) as char
  }

  /** The value of a run of decimal digits (leading zeros allowed). */
  function DigitsValue(s: string): nat
    requires AllDigits(s)
  {
    if s == [] then 0
    else 10 * DigitsValue(s[..|s| - 1]) + (s[|s| - 1] as int - '0' as int)
  }

  /** `String(n)` for a natural number. */
  function NatToString(n: nat): (s: string)
    ensures |s| >= 1 && AllDigits(s)
    ensures |s| == 1 <==> n < 10
    ensures s[0] != '0' || n == 0
  {
    if n < 10 then [DigitChar(n)] else NatToString(n / 10) + [DigitChar(n % 10)]
  }

  /** Reading back the digits of `String(n)` gives `n`. */
  lemma {:induction false} NatToStringValue(n: nat)
    ensures DigitsValue(NatToString(n)) == n
  {
    if n >= 10 {
      NatToStringValue(n / 10);
      var s := NatToString(n);
      assert s[..|s| - 1] == NatToString(n / 10);
    }
  }

  /** Different numbers print differently. */
  lemma NatToStringInjective(m: nat, n: nat)
    requires NatToString(m) == NatToString(n)
    ensures m == n
  {
    NatToStringValue(m);
    NatToStringValue(n);
  }

  /** `String(n)` for an integer. */
  function IntToString(n: int): (s: string)
    ensures n >= 0 ==> s == NatToString(n)
    ensures n < 0 ==> s == "-" + NatToString(-n)
  {
    if n >= 0 then NatToString(n) else "-" + NatToString(-n)
  }

  /** `padStart(2, "0")`. */
  function Pad2(s: string): (r: string)
    ensures |s| >= 2 ==> r == s
    ensures |s| < 2 ==> |r| == 2 && r[2 - |s|..] == s && forall k :: 0 <= k < 2 - |s| ==> r[k] == '0'
  {
    if |s| >= 2 then s else if |s| == 1 then "0" + s else "00"
  }

  /** Length of the leading run of digits. */
  function DigitRun(s: string): (k: nat)
    ensures k <= |s| && AllDigits(s[..k])
    ensures k < |s| ==> !IsDigit(s[k])
  {
    if s != [] && IsDigit(s[0]) then 1 + DigitRun(s[1..]) else 0
  }

  lemma DigitRunAll(s: string)
    requires AllDigits(s)
    ensures DigitRun(s) == |s|
  {
  }

  /** `parseInt(s, 10)`: `None` stands for `NaN`. */
  function ParseInt(s: string): (r: Option<int>)
  {
    var t := TrimStart(s);
    var neg := t != [] && t[0] == '-';
    var u := if t != [] && (t[0] == '-' || t[0] == '+') then t[1..] else t;
    var k := DigitRun(u);
    var v: int := DigitsValue(u[..k]);
    if k == 0 then None
    else if neg then Some(-v)
    else Some(v)
  }

  /** `parseInt` reads a plain run of digits as its decimal value. */
  lemma ParseIntDigits(s: string)
    requires |s| >= 1 && AllDigits(s)
    ensures ParseInt(s) == Some(DigitsValue(s))
  {
    DigitNotSpace(s[0]);
    TrimStartNoSpace(s);
    DigitRunAll(s);
    assert s[..|s|] == s;
  }

  lemma DigitNotSpace(c: char)
    requires IsDigit(c)
    ensures !IsSpace(c) && c != '-' && c != '+'
  {
  }

  /** `parseInt(String(n), 10) == n`. */
  lemma ParseIntOfNat(n: nat)
    ensures ParseInt(NatToString(n)) == Some(n)
  {
    ParseIntDigits(NatToString(n));
    NatToStringValue(n);
  }

  /** The value of the digits `d` read as a decimal fraction `0.d`. */
  function FractionValue(s: string): real
    requires AllDigits(s)
  {
    if s == [] then 0.0
    else ((s[0] as int - '0' as int) as real + FractionValue(s[1..])) / 10.0
  }

  /**
   * `parseFloat` on plain decimals: optional sign, digits, and an optional
   * fractional part; at least one digit. `None` stands for `NaN`.
   */
  function ParseDecimal(s: string): (r: Option<real>)
  {
    ParseSigned(TrimStart(s))
  }

  /** An optional sign, then the unsigned part. */
  function ParseSigned(t: string): (r: Option<real>)
  {
    if t != [] && t[0] == '-' then Negated(ParseUnsigned(t[1..]))
    else if t != [] && t[0] == '+' then ParseUnsigned(t[1..])
    else ParseUnsigned(t)
  }

  function Negated(v: Option<real>): (r: Option<real>)
    ensures r.Some? <==> v.Some?
  {
    if v.Some? then Some(-v.value) else None
  }

  /** The unsigned part: digits, then an optional `.` and digits; at least one digit. */
  function ParseUnsigned(u: string): (r: Option<real>)
  {
    var k := DigitRun(u);
    var whole := DigitsValue(u[..k]) as real;
    var rest := u[k..];
    var f := if rest != [] && rest[0] == '.' then DigitRun(rest[1..]) else 0;
    var frac := if f > 0 then FractionValue(rest[1..][..f]) else 0.0;
    if k == 0 && f == 0 then None else Some(whole + frac)
  }

  /** The unsigned part of `parseFloat` reads a run of digits as its value. */
  lemma ParseUnsignedDigits(u: string)
    requires u != [] && AllDigits(u)
    ensures ParseUnsigned(u) == Some(DigitsValue(u) as real)
  {
    DigitRunAll(u);
    assert u[..|u|] == u && u[|u|..] == [];
  }

  /** `parseFloat` of a run of digits is its value. */
  lemma ParseDigits(u: string)
    requires u != [] && AllDigits(u)
    ensures ParseDecimal(u) == Some(DigitsValue(u) as real)
  {
    DigitNotSpace(u[0]);
    TrimStartNoSpace(u);
    ParseUnsignedDigits(u);
  }

  /** A minus sign in front of an unsigned number negates what `parseFloat` reads. */
  lemma ParseMinus(u: string)
    requires u == [] || (!IsSpace(u[0]) && u[0] != '-' && u[0] != '+')
    ensures ParseDecimal("-" + u) == Negated(ParseDecimal(u))
  {
    var s := "-" + u;
    TrimStartNoSpace(s);
    TrimStartNoSpace(u);
    assert s[1..] == u;
  }

  /** `parseFloat` of a plain integer string is its value. */
  lemma ParseDecimalOfNat(n: nat)
    ensures ParseDecimal(NatToString(n)) == Some(n as real)
  {
    ParseDigits(NatToString(n));
    NatToStringValue(n);
  }

  /** `parseFloat` of a signed integer string keeps the sign. */
  lemma ParseDecimalOfNegNat(n: nat)
    ensures ParseDecimal("-" + NatToString(n)) == Some(-(n as real))
  {
    var u := NatToString(n);
    ParseDecimalOfNat(n);
    DigitNotSpace(u[0]);
    ParseMinus(u);
  }

  /** A run of characters `ParseUnsigned` accepts has a digit in it. */
  lemma UnsignedNeedsDigit(u: string)
    requires ParseUnsigned(u).Some?
    ensures exists k :: 0 <= k < |u| && IsDigit(u[k])
  {
    var k := DigitRun(u);
    if k > 0 {
      assert IsDigit(u[0]);
    } else {
      var rest := u[k..];
      assert rest[0] == '.';
      assert IsDigit(rest[1..][0]);
      assert u[1] == rest[1..][0];
    }
  }

  /** A string `parseFloat` accepts has a digit in it. */
  lemma ParseDecimalNeedsDigit(s: string)
    requires ParseDecimal(s).Some?
    ensures exists k :: 0 <= k < |s| && IsDigit(s[k])
  {
    var t := TrimStart(s);
    var off := |s| - |t|;
    var uo := if t != [] && (t[0] == '-' || t[0] == '+') then off + 1 else off;
    var u := s[uo..];
    assert u == if t != [] && (t[0] == '-' || t[0] == '+') then t[1..] else t;
    UnsignedNeedsDigit(u);
    var k :| 0 <= k < |u| && IsDigit(u[k]);
    assert s[uo + k] == u[k];
  }

  // ------------------------------------------------------------------
  // String order
  // ------------------------------------------------------------------

  /** `a < b` on strings: code-unit lexicographic order. */
  predicate Less(a: string, b: string)
    decreases |a|
  {
    if a == [] then b != []
    else if b == [] then false
    else if a[0] != b[0] then a[0] < b[0]
    else Less(a[1..], b[1..])
  }

  predicate LessEq(a: string, b: string) {
    a == b || Less(a, b)
  }

  lemma {:induction false} LessIrreflexive(a: string)
    ensures !Less(a, a)
    decreases |a|
  {
    if a != [] {
      LessIrreflexive(a[1..]);
    }
  }

  lemma {:induction false} LessTransitive(a: string, b: string, c: string)
    requires Less(a, b) && Less(b, c)
    ensures Less(a, c)
    decreases |a|
  {
    if a != [] && b != [] && c != [] && a[0] == b[0] && b[0] == c[0] {
      LessTransitive(a[1..], b[1..], c[1..]);
    }
  }

  /** Any two different strings are ordered one way round. */
  lemma {:induction false} LessTotal(a: string, b: string)
    ensures a == b || Less(a, b) || Less(b, a)
    decreases |a|
  {
    if a != [] && b != [] && a[0] == b[0] {
      LessTotal(a[1..], b[1..]);
      if a[1..] == b[1..] {
        assert a == [a[0]] + a[1..] && b == [b[0]] + b[1..];
      }
    }
  }

  lemma {:induction false} LessAsymmetric(a: string, b: string)
    requires Less(a, b)
    ensures !Less(b, a)
    decreases |a|
  {
    if a != [] && b != [] && a[0] == b[0] {
      LessAsymmetric(a[1..], b[1..]);
    }
  }

  /** Strings sharing a prefix of equal length compare by that prefix first. */
  lemma {:induction false} LessAppend(a1: string, a2: string, b1: string, b2: string)
    requires |a1| == |b1|
    ensures Less(a1 + a2, b1 + b2) <==> Less(a1, b1) || (a1 == b1 && Less(a2, b2))
    decreases |a1|
  {
    if a1 == [] {
      assert a1 + a2 == a2 && b1 + b2 == b2;
    } else {
      assert (a1 + a2)[0] == a1[0] && (b1 + b2)[0] == b1[0];
      assert (a1 + a2)[1..] == a1[1..] + a2 && (b1 + b2)[1..] == b1[1..] + b2;
      LessAppend(a1[1..], a2, b1[1..], b2);
      if a1[0] == b1[0] && a1[1..] == b1[1..] {
        assert a1 == [a1[0]] + a1[1..] && b1 == [b1[0]] + b1[1..];
      }
    }
  }

  function Pow10(n: nat): (p: nat)
    ensures p >= 1
  {
    if n == 0 then 1 else 10 * Pow10(n - 1)
  }

  lemma {:induction false} DigitsValueBound(s: string)
    requires AllDigits(s)
    ensures DigitsValue(s) < Pow10(|s|)
  {
    if s != [] {
      DigitsValueBound(s[..|s| - 1]);
    }
  }

  lemma FrontStep(a: int, b: int, d: int, p: int, l: int)
    requires a == d * p + b
    ensures 10 * a + l == d * (10 * p) + (10 * b + l)
  {
  }

  /** The leading digit of a run carries weight `10^(|s| - 1)`. */
  lemma {:induction false} DigitsValueFront(s: string)
    requires AllDigits(s) && s != []
    ensures DigitsValue(s) == (s[0] as int - '0' as int) * Pow10(|s| - 1) + DigitsValue(s[1..])
  {
    var n := |s|;
    if n > 1 {
      var init := s[..n - 1];
      var tail := s[1..];
      DigitsValueFront(init);
      assert init[1..] == tail[..n - 2];
      assert init[0] == s[0] && tail[n - 2] == s[n - 1];
      FrontStep(DigitsValue(init), DigitsValue(init[1..]), s[0] as int - '0' as int, Pow10(n - 2), s[n - 1] as int - '0' as int);
    }
  }

  lemma DigitCompare(dx: int, dy: int, p: int, rx: int, ry: int)
    requires 0 <= dx < dy && 1 <= p && 0 <= rx < p && 0 <= ry
    ensures dx * p + rx < dy * p + ry
  {
    var k := dy - dx;
    assert dy * p == dx * p + k * p;
    MulAtLeast(k, p);
  }

  lemma MulAtLeast(k: int, p: int)
    requires 1 <= k && 1 <= p
    ensures k * p >= p
    decreases k
  {
    if k > 1 {
      MulAtLeast(k - 1, p);
      assert k * p == (k - 1) * p + p;
    }
  }

  /** For digit runs of equal length, string order is numeric order. */
  lemma {:induction false} LessDigits(x: string, y: string)
    requires |x| == |y| && AllDigits(x) && AllDigits(y)
    ensures Less(x, y) <==> DigitsValue(x) < DigitsValue(y)
    decreases |x|
  {
    if x != [] {
      DigitsValueFront(x);
      DigitsValueFront(y);
      DigitsValueBound(x[1..]);
      DigitsValueBound(y[1..]);
      var p := Pow10(|x| - 1);
      var dx, dy := x[0] as int - '0' as int, y[0] as int - '0' as int;
      if dx < dy {
        DigitCompare(dx, dy, p, DigitsValue(x[1..]), DigitsValue(y[1..]));
      } else if dy < dx {
        DigitCompare(dy, dx, p, DigitsValue(y[1..]), DigitsValue(x[1..]));
      } else {
        LessDigits(x[1..], y[1..]);
      }
    }
  }

  /** A leading zero does not change the value of a digit run. */
  lemma Pad2Value(s: string)
    requires |s| >= 1 && AllDigits(s)
    ensures AllDigits(Pad2(s)) && DigitsValue(Pad2(s)) == DigitsValue(s)
  {
    if |s| == 1 {
      assert Pad2(s)[..1] == "0";
    }
  }
}
