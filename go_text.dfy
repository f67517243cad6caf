/**
 * The pieces of Go's standard library that the scanner's string handling
 * relies on: strings.Split with a one-character separator, strings.Contains,
 * strconv.Atoi on a 64-bit platform and fmt.Sprint of an int.
 */
module GoText {
  import opened Wrappers

  const MinInt64: int := -0x8000_0000_0000_0000
  const MaxInt64: int := 0x7fff_ffff_ffff_ffff

  predicate InInt64(n: int) {
    MinInt64 <= n <= MaxInt64
  }

  // ---------------------------------------------------------------------------
  // strings.Split(s, sep) for a one-character separator, and its inverse Join

  /** Position of the first `c` in `s`, or |s| when `s` has none. */
  function IndexOf(s: string, c: char): (i: nat)
    ensures i <= |s|
    ensures i < |s| ==> s[i] == c
    ensures forall j :: 0 <= j < i ==> s[j] != c
  {
    if s == [] then 0
    else if s[0] == c then 0
    else 1 + IndexOf(s[1..], c)
  }

  /** strings.Split: the pieces between the separators, always at least one. */
  function Split(s: string, sep: char): (parts: seq<string>)
    ensures parts != [] && parts[0] == s[..IndexOf(s, sep)]
    decreases |s|
  {
    var i := IndexOf(s, sep);
    if i == |s| then
      assert s[..i] == s;
      [s]
    else
      [s[..i]] + Split(s[i + 1..], sep)
  }

  /** No piece of a split holds the separator. */
  lemma {:induction false} SplitPiecesFree(s: string, sep: char)
    ensures forall k :: 0 <= k < |Split(s, sep)| ==> sep !in Split(s, sep)[k]
    decreases |s|
  {
    var i := IndexOf(s, sep);
    if i < |s| {
      SplitPiecesFree(s[i + 1..], sep);
      assert sep !in s[..i];
    }
  }

  /** There is one piece more than there are separators. */
  lemma {:induction false} SplitCount(s: string, sep: char)
    ensures |Split(s, sep)| == multiset(s)[sep] + 1
    decreases |s|
  {
    var i := IndexOf(s, sep);
    if i == |s| {
      assert sep !in multiset(s);
    } else {
      var before, after := s[..i], s[i + 1..];
      SplitCount(after, sep);
      assert s == before + [sep] + after;
      assert sep !in before;
      assert multiset(s)[sep] == multiset(before)[sep] + 1 + multiset(after)[sep];
    }
  }

  /** strings.Join with a one-character separator. */
  function Join(parts: seq<string>, sep: char): string {
    if parts == [] then ""
    else if |parts| == 1 then parts[0]
    else parts[0] + [sep] + Join(parts[1..], sep)
  }

  /** Joining the pieces of a split gives back the split text. */
  lemma {:induction false} JoinSplit(s: string, sep: char)
    ensures Join(Split(s, sep), sep) == s
    decreases |s|
  {
    var i := IndexOf(s, sep);
    if i < |s| {
      JoinSplit(s[i + 1..], sep);
      assert s == s[..i] + [sep] + s[i + 1..];
    }
  }

  /** A text without the separator splits into itself alone. */
  lemma SplitWithoutSep(s: string, sep: char)
    requires sep !in s
    ensures Split(s, sep) == [s]
  {
  }

  /** The first piece ends at the first separator; the rest is split on. */
  lemma SplitAtFirstSep(a: string, sep: char, b: string)
    requires sep !in a
    ensures Split(a + [sep] + b, sep) == [a] + Split(b, sep)
  {
    var s := a + [sep] + b;
    forall j | 0 <= j < |a| ensures s[j] != sep {
      assert s[j] == a[j];
    }
    assert s[|a|] == sep;
    assert IndexOf(s, sep) == |a|;
    assert s[..|a|] == a;
    assert s[|a| + 1..] == b;
  }

  /** Two separator-free pieces around one separator split into exactly those two. */
  lemma SplitPair(a: string, sep: char, b: string)
    requires sep !in a && sep !in b
    ensures Split(a + [sep] + b, sep) == [a, b]
  {
    SplitAtFirstSep(a, sep, b);
    SplitWithoutSep(b, sep);
  }

  /** Splitting separator-free pieces joined by that separator gives back the pieces. */
  lemma {:induction false} SplitJoin(parts: seq<string>, sep: char)
    requires parts != []
    requires forall k :: 0 <= k < |parts| ==> sep !in parts[k]
    ensures Split(Join(parts, sep), sep) == parts
  {
    if |parts| == 1 {
      SplitWithoutSep(parts[0], sep);
    } else {
      SplitJoin(parts[1..], sep);
      SplitAtFirstSep(parts[0], sep, Join(parts[1..], sep));
      assert parts == [parts[0]] + parts[1..];
    }
  }

  /** Join distributes over appending one more piece. */
  lemma {:induction false} JoinSnoc(parts: seq<string>, last: string, sep: char)
    requires parts != []
    ensures Join(parts + [last], sep) == Join(parts, sep) + [sep] + last
  {
    if |parts| > 1 {
      assert (parts + [last])[1..] == parts[1..] + [last];
      JoinSnoc(parts[1..], last, sep);
    }
  }

  /** A trailing separator adds one empty piece at the end. */
  lemma SplitTrailingSep(s: string, sep: char)
    ensures Split(s + [sep], sep) == Split(s, sep) + [""]
  {
    var parts := Split(s, sep);
    SplitPiecesFree(s, sep);
    JoinSplit(s, sep);
    JoinSnoc(parts, "", sep);
    assert Join(parts + [""], sep) == s + [sep];
    SplitJoin(parts + [""], sep);
  }

  // ---------------------------------------------------------------------------
  // strings.Contains(s, substr)

  predicate HasPrefix(s: string, prefix: string) {
    |prefix| <= |s| && s[..|prefix|] == prefix
  }

  /** `sub` sits in `s` starting at position i. */
  predicate OccursAt(s: string, sub: string, i: nat) {
    i + |sub| <= |s| && s[i..i + |sub|] == sub
  }

  /** strings.Contains: a left-to-right scan for `sub`. */
  predicate Contains(s: string, sub: string)
    decreases |s|
  {
    HasPrefix(s, sub) || (s != [] && Contains(s[1..], sub))
  }

  /** The scan finds `sub` exactly when it occurs somewhere in `s`. */
  lemma {:induction false} ContainsIffOccurs(s: string, sub: string)
    ensures Contains(s, sub) <==> exists i: nat :: OccursAt(s, sub, i)
    decreases |s|
  {
    if HasPrefix(s, sub) {
      assert OccursAt(s, sub, 0);
    } else if s == [] {
    } else {
      ContainsIffOccurs(s[1..], sub);
      if Contains(s[1..], sub) {
        var i: nat :| OccursAt(s[1..], sub, i);
        assert s[i + 1..i + 1 + |sub|] == s[1..][i..i + |sub|];
        assert OccursAt(s, sub, i + 1);
      } else {
        forall i: nat | OccursAt(s, sub, i) ensures false {
          if i > 0 {
            assert s[1..][i - 1..i - 1 + |sub|] == s[i..i + |sub|];
            assert OccursAt(s[1..], sub, i - 1);
          }
        }
      }
    }
  }

  /** Containing a one-character string is membership of that character. */
  lemma {:induction false} ContainsChar(s: string, c: char)
    ensures Contains(s, [c]) <==> c in s
    decreases |s|
  {
    if s != [] {
      ContainsChar(s[1..], c);
      assert s == [s[0]] + s[1..];
    }
  }

  // ---------------------------------------------------------------------------
  // strconv.Atoi and fmt.Sprint for int

  predicate IsDigit(c: char) {
    '0' <= c <= '9'
  }

  predicate AllDigits(s: string) {
    forall k :: 0 <= k < |s| ==> IsDigit(s[k])
  }

  /** The value of a run of decimal digits, most significant first. */
  function DigitsValue(ds: string): nat
    requires AllDigits(ds)
  {
    if ds == [] then 0
    else 10 * DigitsValue(ds[..|ds| - 1]) + (ds[|ds| - 1] as int - '0' as int)
  }

  /**
   * The number a string spells in Go's decimal integer syntax: an optional
   * sign followed by at least one digit and nothing else; None otherwise.
   */
  function ParseDecimal(s: string): Option<int> {
    if s != [] && (s[0] == '+' || s[0] == '-') then
      var digits := s[1..];
      if digits != [] && AllDigits(digits) then
        var v: int := DigitsValue(digits);
        Some(if s[0] == '-' then -v else v)
      else None
    else if s != [] && AllDigits(s) then Some(DigitsValue(s))
    else None
  }

  /** Saturation to the 64-bit range, as strconv reports an out-of-range number. */
  function Clamp64(n: int): (r: int)
    ensures InInt64(r)
    ensures InInt64(n) ==> r == n
    ensures n > MaxInt64 ==> r == MaxInt64
    ensures n < MinInt64 ==> r == MinInt64
  {
    if n > MaxInt64 then MaxInt64 else if n < MinInt64 then MinInt64 else n
  }

  const MaxUint64: int := 0xffff_ffff_ffff_ffff

  /** Whether the text opens with a minus sign. */
  predicate IsNegative(s: string) {
    s != [] && s[0] == '-'
  }

  /** The text after an optional leading sign. */
  function Unsigned(s: string): (u: string)
    ensures |u| <= |s|
  {
    if s != [] && (s[0] == '+' || s[0] == '-') then s[1..] else s
  }

  /** The length of the run of digits that opens a text. */
  function DigitRunLength(s: string): (i: nat)
    ensures i <= |s|
    ensures AllDigits(s[..i])
    ensures i < |s| ==> !IsDigit(s[i])
  {
    if s != [] && IsDigit(s[0]) then
      var i := 1 + DigitRunLength(s[1..]);
      assert s[..i] == [s[0]] + s[1..][..i - 1];
      i
    else 0
  }

  /**
   * The value of the digits that follow the optional sign, up to the first
   * non-digit. Go's unsigned scan reports an out-of-range number as soon as
   * this value passes 2^64-1, before it looks at anything further.
   */
  function LeadingValue(s: string): nat {
    var u := Unsigned(s);
    DigitsValue(u[..DigitRunLength(u)])
  }

  /**
   * strconv.Atoi on a 64-bit platform with its error discarded. Digits that
   * overflow an unsigned 64-bit number saturate to the bound of the sign's
   * direction whatever follows them; otherwise a syntax error reads as 0 and a
   * well-formed number outside the int range saturates as well.
   */
  function Atoi(s: string): (n: int)
    ensures InInt64(n)
    ensures LeadingValue(s) > MaxUint64 ==> n == (if IsNegative(s) then MinInt64 else MaxInt64)
    ensures LeadingValue(s) <= MaxUint64 && ParseDecimal(s).None? ==> n == 0
    ensures ParseDecimal(s).Some? ==> n == Clamp64(ParseDecimal(s).value)
  {
    var u := Unsigned(s);
    var run := u[..DigitRunLength(u)];
    var v: int := DigitsValue(run);
    ParseDecimalUnsigned(s);
    if v > MaxUint64 then (if IsNegative(s) then MinInt64 else MaxInt64)
    else if u == [] || |run| < |u| then 0
    else Clamp64(if IsNegative(s) then -v else v)
  }

  /** The decimal syntax is a non-empty run of digits after the optional sign. */
  lemma ParseDecimalUnsigned(s: string)
    ensures var u := Unsigned(s);
      ParseDecimal(s).Some? <==> u != [] && DigitRunLength(u) == |u|
    ensures var u := Unsigned(s);
      ParseDecimal(s).Some? ==>
        u[..DigitRunLength(u)] == u &&
        ParseDecimal(s).value == (if IsNegative(s) then -(DigitsValue(u) as int) else DigitsValue(u))
  {
    var u := Unsigned(s);
    var i := DigitRunLength(u);
    assert u[..|u|] == u;
    if i < |u| {
      assert !IsDigit(u[i]);
    }
  }

  /** Appending digits never makes the value of a digit run smaller. */
  lemma {:induction false} DigitsValueGrows(ds: string, more: string)
    requires AllDigits(ds + more)
    ensures AllDigits(ds)
    ensures DigitsValue(ds) <= DigitsValue(ds + more)
    decreases |more|
  {
    assert forall k :: 0 <= k < |ds| ==> ds[k] == (ds + more)[k];
    if more == [] {
      assert ds + more == ds;
    } else {
      var whole, init := ds + more, more[..|more| - 1];
      assert whole[..|whole| - 1] == ds + init;
      assert forall k :: 0 <= k < |ds + init| ==> (ds + init)[k] == whole[k];
      DigitsValueGrows(ds, init);
    }
  }

  /**
   * Once the digits read so far overflow 2^64-1, Atoi saturates whatever text
   * follows them.
   */
  lemma AtoiOverflowIgnoresRest(ds: string, rest: string)
    requires ds != [] && AllDigits(ds) && DigitsValue(ds) > MaxUint64
    ensures Atoi(ds + rest) == MaxInt64
  {
    var s := ds + rest;
    assert Unsigned(s) == s by { assert IsDigit(s[0]); }
    var i := DigitRunLength(s);
    assert forall k :: 0 <= k < |ds| ==> IsDigit(s[k]);
    assert |ds| <= i;
    assert s[..i] == ds + s[|ds|..i];
    DigitsValueGrows(ds, s[|ds|..i]);
  }

  function DigitChar(d: nat): (c: char)
    requires d < 10
    ensures IsDigit(c)
  {
    ('0' as int + d) as char
  }

  /** The decimal digits of a natural number, without leading zeros. */
  function FormatNat(n: nat): (s: string)
    ensures s != []
  {
    if n < 10 then [DigitChar(n)] else FormatNat(n / 10) + [DigitChar(n % 10)]
  }

  /** The text of a natural number is all digits and reads back as that number. */
  lemma {:induction false} DigitsOfFormat(n: nat)
    ensures AllDigits(FormatNat(n))
    ensures DigitsValue(FormatNat(n)) == n
  {
    var s := FormatNat(n);
    if n >= 10 {
      DigitsOfFormat(n / 10);
      assert s[..|s| - 1] == FormatNat(n / 10);
    }
  }

  /** fmt.Sprint of an int: a minus sign for negative numbers, then the digits. */
  function FormatInt(n: int): (s: string)
    ensures s != []
  {
    if n < 0 then "-" + FormatNat(-n) else FormatNat(n)
  }

  /** Reading back the decimal text of any integer gives that integer. */
  lemma ParseFormat(n: int)
    ensures ParseDecimal(FormatInt(n)) == Some(n)
  {
    if n < 0 {
      DigitsOfFormat(-n);
      assert FormatInt(n)[1..] == FormatNat(-n);
    } else {
      DigitsOfFormat(n);
      assert IsDigit(FormatInt(n)[0]);
    }
  }

  /** Atoi reads back fmt.Sprint of every 64-bit integer. */
  lemma AtoiFormat(n: int)
    requires InInt64(n)
    ensures Atoi(FormatInt(n)) == n
  {
    ParseFormat(n);
  }
}
