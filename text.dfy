/** The JavaScript string built-ins the applications rely on, over Dafny
    strings: `trim`, `includes`/`indexOf`, `join`, `split`, ASCII
    lower-casing, `parseInt` and the `/\d{4}/` year search. */
module Text {
  import opened Base

  // ---------------------------------------------------------------------------
  // Whitespace and trimming
  // ---------------------------------------------------------------------------

  /** An ECMAScript LineTerminator; also the characters `.` does not match. */
  predicate IsLineTerminator(c: char) {
    c == '\n' || c == '\r' || c == '\U{2028}' || c == '\U{2029}'
  }

  /** An ECMAScript WhiteSpace or LineTerminator: what `trim` strips. */
  predicate IsWhite(c: char) {
    || IsLineTerminator(c)
    || c == '\t' || c == '\U{000B}' || c == '\U{000C}' || c == ' '
    || c == '\U{00A0}' || c == '\U{1680}' || ('\U{2000}' <= c <= '\U{200A}')
    || c == '\U{202F}' || c == '\U{205F}' || c == '\U{3000}' || c == '\U{FEFF}'
  }

  /** True of a string whose `trim()` is empty, i.e. a falsy `s.trim()`. */
  predicate IsBlank(s: string) {
    forall i | 0 <= i < |s| :: IsWhite(s[i])
  }

  /** Leading whitespace removed (the first step of `trim`, and of `parseInt`).
      What it removes is stated by `TrimStartShape`. */
  function TrimStart(s: string): (r: string)
    ensures |r| <= |s|
    ensures r != [] ==> !IsWhite(r[0])
  {
    if s != [] && IsWhite(s[0]) then TrimStart(s[1..]) else s
  }

  /** `TrimStart` removes a blank prefix and nothing else. */
  lemma {:induction false} TrimStartShape(s: string)
    ensures var r := TrimStart(s); r == s[|s| - |r|..] && IsBlank(s[..|s| - |r|])
  {
    if s != [] && IsWhite(s[0]) {
      TrimStartShape(s[1..]);
      var r := TrimStart(s[1..]);
      assert s[..|s| - |r|] == [s[0]] + s[1..][..|s[1..]| - |r|];
    }
  }

  /** Trailing whitespace removed. What it removes is stated by
      `TrimEndShape`. */
  function TrimEnd(s: string): (r: string)
    ensures |r| <= |s|
    ensures r != [] ==> !IsWhite(r[|r| - 1])
  {
    if s != [] && IsWhite(s[|s| - 1]) then TrimEnd(s[..|s| - 1]) else s
  }

  /** `TrimEnd` removes a blank suffix and nothing else. */
  lemma {:induction false} TrimEndShape(s: string)
    ensures var r := TrimEnd(s); r == s[..|r|] && IsBlank(s[|r|..])
  {
    if s != [] && IsWhite(s[|s| - 1]) {
      TrimEndShape(s[..|s| - 1]);
      var r := TrimEnd(s[..|s| - 1]);
      assert s[|r|..] == s[..|s| - 1][|r|..] + [s[|s| - 1]];
    }
  }

  /** `s` has no white space at either end, so `trim` leaves it alone. */
  predicate Trimmed(s: string) {
    s == [] || (!IsWhite(s[0]) && !IsWhite(s[|s| - 1]))
  }

  /** `String.prototype.trim`: whitespace removed at both ends. Where the
      result sits in `s` is stated by `TrimInfix`. */
  function Trim(s: string): (r: string)
    ensures Trimmed(r)
    ensures r == [] <==> IsBlank(s)
  {
    TrimEmptyIffBlank(s);
    TrimEndShape(TrimStart(s));
    TrimEnd(TrimStart(s))
  }

  /** `trim` removes only whitespace: its result is the infix of `s` between
      a blank prefix and a blank suffix. */
  lemma TrimInfix(s: string)
    ensures var r, a := TrimEnd(TrimStart(s)), |s| - |TrimStart(s)|;
      a + |r| <= |s| && r == s[a..a + |r|] && IsBlank(s[..a]) && IsBlank(s[a + |r|..])
  {
    var t := TrimStart(s);
    var r := TrimEnd(t);
    var a := |s| - |t|;
    TrimStartShape(s);
    TrimEndShape(t);
    InfixOfSuffix(s, t, r);
  }

  /** A prefix of a suffix is an infix. */
  lemma InfixOfSuffix(s: string, t: string, r: string)
    requires |t| <= |s| && t == s[|s| - |t|..]
    requires |r| <= |t| && r == t[..|r|]
    ensures var a := |s| - |t|; r == s[a..a + |r|] && s[a + |r|..] == t[|r|..]
  {
  }

  /** `trim` gives the empty string exactly for a blank string. */
  lemma TrimEmptyIffBlank(s: string)
    ensures TrimEnd(TrimStart(s)) == [] <==> IsBlank(s)
  {
    var t := TrimStart(s);
    var r := TrimEnd(t);
    var a := |s| - |t|;
    TrimStartShape(s);
    TrimEndShape(t);
    if r == [] {
      assert t[|r|..] == t;
      assert s == s[..a] + t;
      BlankConcat(s[..a], t);
    } else {
      assert r[0] == t[0] == s[a];
    }
  }

  /** Two blank strings make a blank string. */
  lemma BlankConcat(x: string, y: string)
    requires IsBlank(x) && IsBlank(y)
    ensures IsBlank(x + y)
  {
    forall i | 0 <= i < |x + y| ensures IsWhite((x + y)[i]) {
      if i >= |x| {
        assert (x + y)[i] == y[i - |x|];
      }
    }
  }

  /** A string that starts and ends with non-whitespace is its own trim. */
  lemma TrimOfTrimmed(s: string)
    requires Trimmed(s)
    ensures Trim(s) == s
  {
  }

  /** `trim` is idempotent. */
  lemma TrimIdempotent(s: string)
    ensures Trim(Trim(s)) == Trim(s)
  {
    TrimOfTrimmed(Trim(s));
  }

  /** What `trim` leaves of a string that is not blank is not blank. */
  lemma TrimNotBlank(s: string)
    requires !IsBlank(s)
    ensures !IsBlank(Trim(s))
  {
    var t := Trim(s);
    assert t != [] && !IsWhite(t[0]);
  }

  // ---------------------------------------------------------------------------
  // Concatenation and joining
  // ---------------------------------------------------------------------------

  /** `runs.join('')`. */
  function Concat(runs: seq<string>): string {
    if runs == [] then "" else runs[0] + Concat(runs[1..])
  }

  lemma ConcatSingle(s: string)
    ensures Concat([s]) == s
  {
    assert Concat([s]) == s + Concat([]);
    assert s + "" == s;
  }

  /** `parts.join(sep)`. */
  function Join(parts: seq<string>, sep: string): string {
    if |parts| == 0 then ""
    else if |parts| == 1 then parts[0]
    else parts[0] + sep + Join(parts[1..], sep)
  }

  // ---------------------------------------------------------------------------
  // Substring search
  // ---------------------------------------------------------------------------

  /** `p` occurs in `s` starting at index `i`. */
  predicate OccursAt(s: string, p: string, i: int) {
    0 <= i && i + |p| <= |s| && forall k | 0 <= k < |p| :: s[i + k] == p[k]
  }

  /** The first index at or after `i` where `p` occurs in `s`. */
  function FindFrom(s: string, p: string, i: nat): (r: Option<nat>)
    ensures r.Some? ==> i <= r.value && OccursAt(s, p, r.value)
    ensures r.Some? ==> forall j | i <= j < r.value :: !OccursAt(s, p, j)
    ensures r.None? ==> forall j | i <= j :: !OccursAt(s, p, j)
    decreases |s| + 1 - i
  {
    if i + |p| > |s| then None
    else if OccursAt(s, p, i) then Some(i)
    else FindFrom(s, p, i + 1)
  }

  /** `s.indexOf(p)`, with `None` for -1. */
  function Find(s: string, p: string): (r: Option<nat>)
    ensures r.Some? ==> OccursAt(s, p, r.value) && forall j | 0 <= j < r.value :: !OccursAt(s, p, j)
    ensures r.None? <==> forall j :: !OccursAt(s, p, j)
  {
    FindFrom(s, p, 0)
  }

  /** `s.includes(p)`. */
  predicate Contains(s: string, p: string) {
    Find(s, p).Some?
  }

  /** The first occurrence is the one `Find` reports. */
  lemma FindIs(s: string, p: string, i: nat)
    requires OccursAt(s, p, i)
    requires forall j | 0 <= j < i :: !OccursAt(s, p, j)
    ensures Find(s, p) == Some(i)
  {
  }

  /** `p` does not occur in `s` anywhere. */
  lemma NotContains(s: string, p: string)
    requires forall j | 0 <= j <= |s| - |p| :: !OccursAt(s, p, j)
    ensures !Contains(s, p)
  {
  }

  // ---------------------------------------------------------------------------
  // Case folding (ASCII)
  // ---------------------------------------------------------------------------

  function LowerChar(c: char): char {
    if 'A' <= c <= 'Z' then (c as int + 32) as char else c
  }

  /** `toLowerCase`, restricted to ASCII letters. */
  function Lower(s: string): (r: string)
    ensures |r| == |s|
  {
    seq(|s|, i requires 0 <= i < |s| => LowerChar(s[i]))
  }

  // ---------------------------------------------------------------------------
  // Numbers
  // ---------------------------------------------------------------------------

  predicate IsDigit(c: char) {
    '0' <= c <= '9'
  }

  predicate IsHexDigit(c: char) {
    IsDigit(c) || 'a' <= c <= 'f' || 'A' <= c <= 'F'
  }

  predicate IsRadixDigit(c: char, radix: nat) {
    if radix == 16 then IsHexDigit(c) else IsDigit(c)
  }

  function DigitValue(c: char): nat {
    if IsDigit(c) then c as int - '0' as int
    else if 'a' <= c <= 'f' then c as int - 'a' as int + 10
    else if 'A' <= c <= 'F' then c as int - 'A' as int + 10
    else 0
  }

  /** The longest prefix of `s` made of digits of the given radix. */
  function DigitPrefix(s: string, radix: nat): (r: string)
    ensures |r| <= |s| && r == s[..|r|]
    ensures forall i | 0 <= i < |r| :: IsRadixDigit(r[i], radix)
    ensures |r| < |s| ==> !IsRadixDigit(s[|r|], radix)
  {
    if s != [] && IsRadixDigit(s[0], radix) then [s[0]] + DigitPrefix(s[1..], radix) else ""
  }

  /** The value of a string of digits read most significant first. */
  function DigitsValue(d: string, radix: nat): nat {
    if d == [] then 0 else DigitsValue(d[..|d| - 1], radix) * radix + DigitValue(d[|d| - 1])
  }

  /** The shortest decimal numeral of `n`, as `String(n)` writes it. */
  function DecimalString(n: nat): (r: string)
    ensures r != [] && forall i | 0 <= i < |r| :: IsDigit(r[i])
    ensures r[0] == '0' ==> n == 0
  {
    var d := ['0' + (n % 10) as char];
    if n < 10 then d else DecimalString(n / 10) + d
  }

  /** JavaScript's `parseInt(s)` with no radix: leading whitespace is skipped,
      one sign is allowed, a `0x`/`0X` prefix selects base 16, and the longest
      run of digits that follows is read; `None` stands for `NaN`. */
  function ParseInt(s: string): (r: Option<int>)
    // NaN exactly when no digit follows the whitespace, the sign and the
    // base prefix; otherwise the digits' value, negated after a '-'
    ensures var t := TrimStart(s);
      var u := if t != [] && (t[0] == '-' || t[0] == '+') then t[1..] else t;
      var radix := if HasHexPrefix(u) then 16 else 10;
      var d := DigitPrefix(if HasHexPrefix(u) then u[2..] else u, radix);
      && (r.None? <==> d == [])
      && (r.Some? ==> r.value == if t[0] == '-' then 0 - DigitsValue(d, radix) else DigitsValue(d, radix))
  {
    var t := TrimStart(s);
    if t != [] && t[0] == '-' then
      match ParseUnsigned(t[1..])
      case None => None
      case Some(v) => Some(-v)
    else if t != [] && t[0] == '+' then ParseUnsigned(t[1..])
    else ParseUnsigned(t)
  }

  predicate HasHexPrefix(u: string) {
    |u| >= 2 && u[0] == '0' && (u[1] == 'x' || u[1] == 'X')
  }

  /** The digits after the sign: base 16 behind `0x`, base 10 otherwise. */
  function ParseUnsigned(u: string): (r: Option<int>)
    ensures r.Some? ==> r.value >= 0
  {
    if HasHexPrefix(u) then ReadDigits(u[2..], 16) else ReadDigits(u, 10)
  }

  /** The value of the longest run of digits at the start of `u`, if any. */
  function ReadDigits(u: string, radix: nat): (r: Option<int>)
    ensures r.None? <==> u == [] || !IsRadixDigit(u[0], radix)
    ensures r.Some? ==> r.value == DigitsValue(DigitPrefix(u, radix), radix)
  {
    var d := DigitPrefix(u, radix);
    if d == [] then None else Some(DigitsValue(d, radix))
  }

  lemma {:induction false} DigitPrefixAll(s: string, radix: nat)
    requires forall i | 0 <= i < |s| :: IsRadixDigit(s[i], radix)
    ensures DigitPrefix(s, radix) == s
  {
    if s != [] {
      DigitPrefixAll(s[1..], radix);
    }
  }

  lemma {:induction false} DecimalValue(n: nat)
    ensures DigitsValue(DecimalString(n), 10) == n
  {
    if n >= 10 {
      DecimalValue(n / 10);
      var s := DecimalString(n);
      assert s[..|s| - 1] == DecimalString(n / 10);
    }
  }

  lemma TrimStartOfDigits(s: string)
    requires s != [] && IsDigit(s[0])
    ensures TrimStart(s) == s
  {
    assert !IsWhite(s[0]);
  }

  lemma ParseUnsignedDigits(s: string)
    requires s != [] && forall i | 0 <= i < |s| :: IsDigit(s[i])
    ensures ParseUnsigned(s) == Some(DigitsValue(s, 10))
  {
    assert !HasHexPrefix(s) by {
      if |s| >= 2 { assert IsDigit(s[1]); }
    }
    DigitPrefixAll(s, 10);
  }

  /** `parseInt` of a non-empty string of decimal digits is its value. */
  lemma ParseDigits(s: string)
    requires s != [] && forall i | 0 <= i < |s| :: IsDigit(s[i])
    ensures ParseInt(s) == Some(DigitsValue(s, 10))
  {
    TrimStartOfDigits(s);
    ParseUnsignedDigits(s);
  }

  /** `parseInt` reads back what `String(n)` writes for a natural number. */
  lemma ParseDecimal(n: nat)
    ensures ParseInt(DecimalString(n)) == Some(n)
  {
    ParseDigits(DecimalString(n));
    DecimalValue(n);
  }

  // ---------------------------------------------------------------------------
  // Splitting and replacing
  // ---------------------------------------------------------------------------

  /** `s.split(sep)` for a non-empty separator string. */
  function Split(s: string, sep: string): (r: seq<string>)
    requires sep != []
    ensures r != []
    decreases |s|
  {
    match Find(s, sep)
    case None => [s]
    case Some(i) => [s[..i]] + Split(s[i + |sep|..], sep)
  }

  /** No piece of a split contains the separator. */
  lemma {:induction false} SplitPiecesFree(s: string, sep: string)
    requires sep != []
    ensures forall k | 0 <= k < |Split(s, sep)| :: !Contains(Split(s, sep)[k], sep)
    decreases |s|
  {
    SplitStep(s, sep);
    match Find(s, sep)
    case None =>
    case Some(i) =>
      var head := s[..i];
      forall j | 0 <= j <= |head| - |sep| ensures !OccursAt(head, sep, j) {
        forall m | j <= m < j + |sep| ensures head[m] == s[m] { }
        assert !OccursAt(s, sep, j);
      }
      SplitPiecesFree(s[i + |sep|..], sep);
  }

  /** Joining the pieces of a split with the same separator gives back the
      original string. */
  lemma {:induction false} SplitJoin(s: string, sep: string)
    requires sep != []
    ensures Join(Split(s, sep), sep) == s
    decreases |s|
  {
    match Find(s, sep)
    case None =>
    case Some(i) =>
      var rest := s[i + |sep|..];
      SplitJoin(rest, sep);
      assert s[i..i + |sep|] == sep;
      assert s == s[..i] + sep + rest;
  }

  /** An occurrence anywhere means `includes` holds. */
  lemma OccursContains(s: string, p: string, i: nat)
    requires OccursAt(s, p, i)
    ensures Contains(s, p)
  {
    if Find(s, p).None? {
      assert false;
    }
  }

  /** A pattern absent from two strings and without the character between
      them is absent from their concatenation. */
  lemma AbsentAcross(a: string, c: char, b: string, p: string)
    requires !Contains(a, p) && !Contains(b, p) && c !in p
    ensures !Contains(a + [c] + b, p)
  {
    var s := a + [c] + b;
    forall j | 0 <= j <= |s| - |p| ensures !OccursAt(s, p, j) {
      if j + |p| <= |a| {
        assert !OccursAt(a, p, j);
        forall m | j <= m < j + |p| ensures s[m] == a[m] {
        }
      } else if j > |a| {
        assert !OccursAt(b, p, j - |a| - 1);
        forall m | j <= m < j + |p| ensures s[m] == b[m - |a| - 1] {
        }
      } else {
        assert s[j + (|a| - j)] == c;
        assert p[|a| - j] != c;
      }
    }
    NotContains(s, p);
  }

  /** A mismatch at one position rules out an occurrence there. */
  lemma Mismatch(s: string, p: string, j: nat, k: nat)
    requires k < |p| && j + k < |s| && s[j + k] != p[k]
    ensures !OccursAt(s, p, j)
  {
  }

  /** Joining one more part adds the separator and the part at the end. */
  lemma {:induction false} JoinAppend(parts: seq<string>, sep: string, x: string)
    requires parts != []
    ensures Join(parts + [x], sep) == Join(parts, sep) + sep + x
    decreases |parts|
  {
    if |parts| > 1 {
      assert (parts + [x])[1..] == parts[1..] + [x];
      JoinAppend(parts[1..], sep, x);
    }
  }

  /** Splitting at a one-character separator that no part contains gives
      the parts back. */
  lemma {:induction false} SplitOfJoin(parts: seq<string>, c: char)
    requires parts != []
    requires forall k | 0 <= k < |parts| :: c !in parts[k]
    ensures Split(Join(parts, [c]), [c]) == parts
    decreases |parts|
  {
    var s := Join(parts, [c]);
    SplitStep(s, [c]);
    if |parts| == 1 {
      CharAbsent(parts[0], c);
      assert s == parts[0] && parts == [s];
    } else {
      var tail := parts[1..];
      assert forall k | 0 <= k < |tail| :: c !in tail[k] by {
        forall k | 0 <= k < |tail| ensures c !in tail[k] {
          assert tail[k] == parts[k + 1];
        }
      }
      JoinFindsFirst(parts, c);
      SplitOfJoin(tail, c);
      assert parts == [parts[0]] + tail;
    }
  }

  /** A string without `c` has no occurrence of `[c]`. */
  lemma CharAbsent(s: string, c: char)
    requires c !in s
    ensures Find(s, [c]).None?
  {
    forall j | 0 <= j ensures !OccursAt(s, [c], j) {
      if j < |s| {
        assert s[j + 0] != [c][0];
      }
    }
  }

  /** In a join at `c` of parts without `c`, the first `c` ends the first
      part. */
  lemma JoinFindsFirst(parts: seq<string>, c: char)
    requires |parts| > 1
    requires c !in parts[0]
    ensures var s := Join(parts, [c]);
      var i := |parts[0]|;
      && Find(s, [c]) == Some(i)
      && s[..i] == parts[0]
      && s[i + 1..] == Join(parts[1..], [c])
  {
    var s := Join(parts, [c]);
    var i := |parts[0]|;
    var rest := Join(parts[1..], [c]);
    assert s == parts[0] + [c] + rest;
    assert OccursAt(s, [c], i);
    forall j | 0 <= j < i ensures !OccursAt(s, [c], j) {
      assert s[j + 0] == parts[0][j];
      assert s[j + 0] != [c][0];
    }
    FindIs(s, [c], i);
    assert s[..i] == parts[0];
    assert s[i + 1..] == rest;
  }

  /** Whatever occurs in a piece of a split occurs in the whole string. */
  lemma OccursInPiece(s: string, sep: string, n: nat, p: string, q: nat)
    requires sep != [] && n < |Split(s, sep)|
    requires OccursAt(Split(s, sep)[n], p, q)
    ensures Contains(s, p)
  {
    SplitJoin(s, sep);
    var off := PartOffset(Split(s, sep), sep, n);
    OccursWithin(s, Split(s, sep)[n], off, p, q);
  }

  /** What occurs in a part of `s` occurs in `s`. */
  lemma OccursWithin(s: string, part: string, off: nat, p: string, q: nat)
    requires OccursAt(s, part, off)
    requires OccursAt(part, p, q)
    ensures Contains(s, p)
  {
    OccursShift(s, off, part, p, q);
    OccursContains(s, p, off + q);
  }

  /** Every part of a join occurs in the joined string. */
  lemma {:induction false} PartOffset(parts: seq<string>, sep: string, n: nat) returns (off: nat)
    requires n < |parts|
    ensures OccursAt(Join(parts, sep), parts[n], off)
    decreases |parts|
  {
    var j := Join(parts, sep);
    if |parts| == 1 {
      off := 0;
      assert forall k | 0 <= k < |parts[0]| :: j[k] == parts[0][k];
    } else if n == 0 {
      off := 0;
      assert forall k | 0 <= k < |parts[0]| :: j[k] == parts[0][k];
    } else {
      var a := |parts[0]| + |sep|;
      var r := PartOffset(parts[1..], sep, n - 1);
      assert j[a..] == Join(parts[1..], sep);
      OccursInSuffix(j, a, parts[n], r);
      off := a + r;
    }
  }

  /** An occurrence in a suffix is an occurrence in the whole string. */
  lemma OccursInSuffix(s: string, a: nat, part: string, r: nat)
    requires a <= |s| && OccursAt(s[a..], part, r)
    ensures OccursAt(s, part, a + r)
  {
    assert OccursAt(s, s[a..], a);
    OccursShift(s, a, s[a..], part, r);
  }

  /** An occurrence inside an occurrence is an occurrence in the whole string. */
  lemma OccursShift(s: string, off: nat, part: string, p: string, q: nat)
    requires OccursAt(s, part, off)
    requires OccursAt(part, p, q)
    ensures OccursAt(s, p, off + q)
  {
    forall k | 0 <= k < |p| ensures s[off + q + k] == p[k] {
      assert s[off + (q + k)] == part[q + k];
    }
  }

  /** One step of the split: the text up to the first separator, then the
      split of the rest. */
  lemma SplitStep(s: string, sep: string)
    requires sep != []
    ensures Find(s, sep).None? ==> Split(s, sep) == [s]
    ensures Find(s, sep).Some? ==> var i := Find(s, sep).value;
      i + |sep| <= |s| && Split(s, sep) == [s[..i]] + Split(s[i + |sep|..], sep)
  {
  }

  /** `s.replace(/c/g, rep)` for a single character `c`. */
  function ReplaceAll(s: string, c: char, rep: string): (r: string)
    ensures c !in s ==> r == s
    ensures rep != [] ==> |r| >= |s|
  {
    if s == [] then "" else (if s[0] == c then rep else [s[0]]) + ReplaceAll(s[1..], c, rep)
  }

  /** The characters of `ReplaceAll(s, c, rep)`: those of `s` other than
      `c`, and those of `rep` when `c` occurs. */
  lemma {:induction false} ReplaceAllChars(s: string, c: char, rep: string, x: char)
    ensures x in ReplaceAll(s, c, rep) <==> (x in s && x != c) || (c in s && x in rep)
  {
    if s != [] {
      ReplaceAllChars(s[1..], c, rep, x);
      assert x in s <==> x == s[0] || x in s[1..];
      assert c in s <==> c == s[0] || c in s[1..];
    }
  }

  lemma {:induction false} ReplaceAllAppend(a: string, b: string, c: char, rep: string)
    ensures ReplaceAll(a + b, c, rep) == ReplaceAll(a, c, rep) + ReplaceAll(b, c, rep)
  {
    if a != [] {
      assert (a + b)[0] == a[0] && (a + b)[1..] == a[1..] + b;
      ReplaceAllAppend(a[1..], b, c, rep);
    } else {
      assert a + b == b;
    }
  }

  /** `s.replace(c, '')`: the first occurrence of the character `c` removed. */
  function RemoveFirst(s: string, c: char): (r: string)
    ensures c !in s ==> r == s
    ensures c in s ==> |r| == |s| - 1
  {
    if s == [] then "" else if s[0] == c then s[1..] else [s[0]] + RemoveFirst(s[1..], c)
  }

  /** The character `RemoveFirst` drops is the first `c`. */
  lemma {:induction false} RemoveFirstAt(s: string, c: char, i: nat)
    requires i < |s| && s[i] == c && c !in s[..i]
    ensures RemoveFirst(s, c) == s[..i] + s[i + 1..]
  {
    if i > 0 {
      assert s[0] in s[..i];
      var t := s[1..];
      assert t[i - 1] == c && t[..i - 1] == s[1..i];
      assert c !in t[..i - 1];
      RemoveFirstAt(t, c, i - 1);
      assert s[..i] == [s[0]] + t[..i - 1] && s[i + 1..] == t[i..];
    }
  }

  // ---------------------------------------------------------------------------
  // The year pattern /\d{4}/
  // ---------------------------------------------------------------------------

  predicate FourDigitsAt(s: string, i: int) {
    0 <= i && i + 4 <= |s| && IsDigit(s[i]) && IsDigit(s[i + 1]) && IsDigit(s[i + 2]) && IsDigit(s[i + 3])
  }

  function FourDigitsFrom(s: string, i: nat): (r: Option<nat>)
    ensures r.Some? ==> i <= r.value && FourDigitsAt(s, r.value)
    ensures r.Some? ==> forall j | i <= j < r.value :: !FourDigitsAt(s, j)
    ensures r.None? ==> forall j | i <= j :: !FourDigitsAt(s, j)
    decreases |s| + 1 - i
  {
    if i + 4 > |s| then None
    else if FourDigitsAt(s, i) then Some(i)
    else FourDigitsFrom(s, i + 1)
  }

  /** `s.match(/\d{4}/)?.[0]`: the leftmost run of four ASCII digits. */
  function FirstYear(s: string): (r: Option<string>)
    ensures r.None? <==> forall j :: !FourDigitsAt(s, j)
    ensures r.Some? ==> exists i :: FourDigitsAt(s, i) && r.value == s[i..i + 4] && forall j | 0 <= j < i :: !FourDigitsAt(s, j)
    ensures r.Some? ==> |r.value| == 4 && forall k | 0 <= k < 4 :: IsDigit(r.value[k])
  {
    match FourDigitsFrom(s, 0)
    case None => None
    case Some(i) => Some(s[i..i + 4])
  }
}
