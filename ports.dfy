/**
 * The nmap-style port-range expander (parsePorts): comma-separated tokens,
 * each a single port or an inclusive `start-end` range.
 */
module Ports {
  import opened Wrappers
  import opened GoText

  /** The inclusive ascending range lo, lo+1, ..., hi; empty when lo > hi. */
  function RangeOf(lo: int, hi: int): (r: seq<int>)
    ensures |r| == if lo <= hi then hi - lo + 1 else 0
    ensures forall k :: 0 <= k < |r| ==> r[k] == lo + k
    decreases hi - lo
  {
    if lo > hi then [] else [lo] + RangeOf(lo + 1, hi)
  }

  /** Extending a range by its next port. */
  lemma RangeOfSnoc(lo: int, hi: int)
    requires lo <= hi + 1
    ensures RangeOf(lo, hi + 1) == RangeOf(lo, hi) + [hi + 1]
  {
    var a, b := RangeOf(lo, hi + 1), RangeOf(lo, hi) + [hi + 1];
    assert |a| == |b|;
    forall k | 0 <= k < |a| ensures a[k] == b[k] {
    }
  }

  /**
   * The ports one token contributes: a token holding `-` is split on `-`
   * and only its first two pieces are read as the range bounds; any other
   * token is one port. Malformed numbers read as 0.
   */
  function TokenPorts(token: string): (r: seq<int>)
    ensures '-' !in token ==> r == [Atoi(token)]
  {
    ContainsChar(token, '-');
    SplitCount(token, '-');
    if Contains(token, "-") then
      var bounds := Split(token, '-');
      RangeOf(Atoi(bounds[0]), Atoi(bounds[1]))
    else
      [Atoi(token)]
  }

  /** The ports of a list of tokens, in token order, without deduplication. */
  function ExpandTokens(tokens: seq<string>): seq<int> {
    if tokens == [] then []
    else ExpandTokens(tokens[..|tokens| - 1]) + TokenPorts(tokens[|tokens| - 1])
  }

  /** What parsePorts returns for a port argument. */
  function PortSpec(portArg: string): seq<int> {
    if portArg == "" then [] else ExpandTokens(Split(portArg, ','))
  }

  /** The counting loop of parsePorts: appends start, start+1, ..., end. */
  method AppendRange(ports: seq<int>, start: int, end: int) returns (grown: seq<int>)
    ensures grown == ports + RangeOf(start, end)
  {
    grown := ports;
    var port := start;
    while port <= end
      invariant port == start || start <= port <= end + 1
      invariant grown == ports + RangeOf(start, port - 1)
      decreases end - port
    {
      RangeOfSnoc(start, port - 1);
      grown := grown + [port];
      port := port + 1;
    }
    assert RangeOf(start, port - 1) == RangeOf(start, end);
  }

  /** parsePorts: grows the port list token by token. */
  method ParsePorts(portArg: string) returns (ports: seq<int>)
    ensures ports == PortSpec(portArg)
    ensures portArg == "" ==> ports == []
  {
    ports := [];
    if portArg == "" {
      return;
    }
    var ranges := Split(portArg, ',');
    var i := 0;
    while i < |ranges|
      invariant 0 <= i <= |ranges|
      invariant ports == ExpandTokens(ranges[..i])
    {
      var r := ranges[i];
      assert ranges[..i + 1][..i] == ranges[..i];
      ContainsChar(r, '-');
      SplitCount(r, '-');
      if Contains(r, "-") {
        var bounds := Split(r, '-');
        var start := Atoi(bounds[0]);
        var end := Atoi(bounds[1]);
        ports := AppendRange(ports, start, end);
      } else {
        var port := Atoi(r);
        ports := ports + [port];
      }
      i := i + 1;
    }
    assert ranges[..i] == ranges;
  }

  // ---------------------------------------------------------------------------
  // What the expansion promises

  /** A token holding `-` reads its bounds from the first two `-` pieces. */
  lemma RangeTokenBounds(token: string)
    requires '-' in token
    ensures |Split(token, '-')| >= 2
    ensures TokenPorts(token) == RangeOf(Atoi(Split(token, '-')[0]), Atoi(Split(token, '-')[1]))
  {
    ContainsChar(token, '-');
    SplitCount(token, '-');
  }

  /** Expanding a list of tokens is expanding its parts one after the other. */
  lemma {:induction false} ExpandTokensAppend(a: seq<string>, b: seq<string>)
    ensures ExpandTokens(a + b) == ExpandTokens(a) + ExpandTokens(b)
    decreases |b|
  {
    if b != [] {
      var b' := b[..|b| - 1];
      assert (a + b)[..|a + b| - 1] == a + b';
      ExpandTokensAppend(a, b');
    } else {
      assert a + b == a;
    }
  }

  /**
   * A port argument made of comma-free tokens expands to the concatenation
   * of the tokens' expansions, in token order.
   */
  lemma PortSpecOfTokens(tokens: seq<string>)
    requires tokens != []
    requires forall k :: 0 <= k < |tokens| ==> ',' !in tokens[k]
    requires Join(tokens, ',') != ""
    ensures PortSpec(Join(tokens, ',')) == ExpandTokens(tokens)
  {
    SplitJoin(tokens, ',');
  }

  /** The first `-` piece of `hi + rest` is hi when rest is empty or starts with `-`. */
  lemma FirstPieceBeforeSep(hi: string, rest: string)
    requires '-' !in hi
    requires rest == "" || rest[0] == '-'
    ensures Split(hi + rest, '-')[0] == hi
  {
    if rest == "" {
      assert hi + rest == hi;
      SplitWithoutSep(hi, '-');
    } else {
      assert rest == ['-'] + rest[1..];
      assert hi + rest == hi + ['-'] + rest[1..];
      SplitAtFirstSep(hi, '-', rest[1..]);
    }
  }

  /**
   * A range token reads only the text before its first `-` and between its
   * first and second `-`; whatever follows a second `-` is ignored.
   */
  lemma RangeToken(lo: string, hi: string, rest: string)
    requires '-' !in lo && '-' !in hi
    requires rest == "" || rest[0] == '-'
    ensures TokenPorts(lo + "-" + hi + rest) == RangeOf(Atoi(lo), Atoi(hi))
  {
    var token := lo + "-" + hi + rest;
    assert token == lo + ['-'] + (hi + rest);
    SplitAtFirstSep(lo, '-', hi + rest);
    FirstPieceBeforeSep(hi, rest);
    assert token[|lo|] == '-';
    RangeTokenBounds(token);
  }

  /** An empty token, as a stray comma leaves, is the one port 0. */
  lemma EmptyTokenIsZero()
    ensures TokenPorts("") == [0]
    ensures ExpandTokens([""]) == [0]
  {
    assert ParseDecimal("") == None;
    assert [""][..0] == [];
  }

  /**
   * A token without `-` holding a character that is neither a digit nor `+`
   * is the one port 0, unless the digits before that character already
   * overflow 2^64-1, which makes it the largest int.
   */
  lemma MalformedTokenIsZero(token: string, k: nat)
    requires '-' !in token
    requires k < |token| && !IsDigit(token[k]) && token[k] != '+'
    ensures TokenPorts(token) == [if LeadingValue(token) > MaxUint64 then MaxInt64 else 0]
  {
    if k > 0 {
      assert token[1..][k - 1] == token[k];
    }
    assert ParseDecimal(token) == None;
    assert !IsNegative(token);
  }

  /** A port token whose leading digits overflow 2^64-1 is the largest int, whatever follows. */
  lemma OverflowingToken(ds: string, rest: string)
    requires ds != [] && AllDigits(ds) && DigitsValue(ds) > MaxUint64
    requires '-' !in ds + rest
    ensures TokenPorts(ds + rest) == [MaxInt64]
  {
    AtoiOverflowIgnoresRest(ds, rest);
  }

  /**
   * A port argument that is one such token, as `99999999999999999999x`, is
   * the single port 2^63-1.
   */
  lemma OverflowingArgument(ds: string, rest: string)
    requires ds != [] && AllDigits(ds) && DigitsValue(ds) > MaxUint64
    requires ',' !in ds + rest && '-' !in ds + rest
    ensures PortSpec(ds + rest) == [MaxInt64]
  {
    AtoiOverflowIgnoresRest(ds, rest);
    SingleArgument(ds + rest);
  }

  /** A trailing comma adds one port 0 at the end. */
  lemma TrailingComma(s: string)
    requires s != ""
    ensures PortSpec(s + ",") == PortSpec(s) + [0]
  {
    var parts := Split(s, ',');
    SplitTrailingSep(s, ',');
    assert (parts + [""])[..|parts|] == parts;
    EmptyTokenIsZero();
  }

  /** A leading comma adds one port 0 at the front. */
  lemma LeadingComma(s: string)
    requires s != ""
    ensures PortSpec("," + s) == [0] + PortSpec(s)
  {
    assert "," + s == "" + [','] + s;
    SplitAtFirstSep("", ',', s);
    ExpandTokensAppend([""], Split(s, ','));
    EmptyTokenIsZero();
  }

  /** An argument that is one plain token is that token's one port. */
  lemma SingleArgument(token: string)
    requires token != "" && ',' !in token && '-' !in token
    ensures PortSpec(token) == [Atoi(token)]
  {
    SplitWithoutSep(token, ',');
    assert [token][..0] == [];
    assert ExpandTokens([token]) == TokenPorts(token);
  }

  /** An argument `a,b` of two plain tokens is their two ports. */
  lemma ListArgument(a: string, b: string)
    requires ',' !in a && ',' !in b && '-' !in a && '-' !in b
    ensures PortSpec(a + "," + b) == [Atoi(a), Atoi(b)]
  {
    var arg := a + "," + b;
    assert arg == a + [','] + b && arg != "";
    SplitPair(a, ',', b);
    assert [a, b][..1] == [a];
    assert [a][..0] == [];
    assert ExpandTokens([a]) == TokenPorts(a) == [Atoi(a)];
    assert ExpandTokens([a, b]) == ExpandTokens([a]) + TokenPorts(b);
  }

  /** An argument `lo-hi` is the range between the two numbers. */
  lemma RangeArgument(lo: string, hi: string)
    requires ',' !in lo && ',' !in hi && '-' !in lo && '-' !in hi
    ensures PortSpec(lo + "-" + hi) == RangeOf(Atoi(lo), Atoi(hi))
  {
    var token := lo + "-" + hi;
    assert token == lo + "-" + hi + "";
    assert token != "";
    assert forall k :: 0 <= k < |token| ==> token[k] in lo || token[k] == '-' || token[k] in hi;
    SplitWithoutSep(token, ',');
    assert [token][..0] == [];
    assert ExpandTokens([token]) == TokenPorts(token);
    RangeToken(lo, hi, "");
  }

  /** The decimal text of a non-negative number holds neither `,` nor `-`. */
  lemma PlainNumber(n: int)
    requires 0 <= n
    ensures ',' !in FormatInt(n) && '-' !in FormatInt(n)
  {
    DigitsOfFormat(n);
  }

  /** A single port written in decimal, as in `-p 22`, is that one port. */
  lemma SinglePort(p: int)
    requires 0 <= p <= MaxInt64
    ensures PortSpec(FormatInt(p)) == [p]
  {
    PlainNumber(p);
    AtoiFormat(p);
    SingleArgument(FormatInt(p));
  }

  /** A list of two ports, as in `-p 80,443`, is those two ports in order. */
  lemma PortList(p: int, q: int)
    requires 0 <= p <= MaxInt64 && 0 <= q <= MaxInt64
    ensures PortSpec(FormatInt(p) + "," + FormatInt(q)) == [p, q]
  {
    PlainNumber(p);
    PlainNumber(q);
    AtoiFormat(p);
    AtoiFormat(q);
    ListArgument(FormatInt(p), FormatInt(q));
  }

  /** A range of ports, as in `-p 20-22`, is every port from the first to the second. */
  lemma PortRange(lo: int, hi: int)
    requires 0 <= lo <= MaxInt64 && 0 <= hi <= MaxInt64
    ensures PortSpec(FormatInt(lo) + "-" + FormatInt(hi)) == RangeOf(lo, hi)
  {
    PlainNumber(lo);
    PlainNumber(hi);
    AtoiFormat(lo);
    AtoiFormat(hi);
    RangeArgument(FormatInt(lo), FormatInt(hi));
  }
}
