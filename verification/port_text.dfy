/** Port and port-range texts: the parser, the formatter, and the encoder from texts. */
module PortText {
  import opened Prelude
  import opened Decimals
  import opened Spaces
  import opened IntervalCodec

  /** A port text: one to five digits, denoting 1 to 65535. */
  predicate IsPort(s: string) {
    1 <= |s| <= 5 && AllDigits(s) && 1 <= Decimal(s) <= 65535
  }

  /** The parser stops early, on a character that is no digit or on a value already too
      large, and still accepts exactly the port texts. */
  method ParsePort(s: string) returns (r: Option<nat>)
    ensures r == if IsPort(s) then Some(Decimal(s)) else None
  {
    if |s| == 0 || |s| > 5 {
      return None;
    }
    var v := 0;
    for i := 0 to |s|
      invariant AllDigits(s[..i]) && v == Decimal(s[..i]) <= 65535
    {
      var c := s[i];
      if !IsDigit(c) {
        return None;
      }
      assert s[..i + 1] == s[..i] + [c] && s[..i + 1][..i] == s[..i];
      v := v * 10 + (c - '0') as nat;
      if v > 65535 {
        if AllDigits(s) {
          DecimalGrows(s, i + 1);
        }
        return None;
      }
    }
    assert s[..|s|] == s;
    if v == 0 {
      return None;
    }
    return Some(v);
  }

  predicate AllSpaces(s: string) {
    forall i :: 0 <= i < |s| ==> IsSpace(s[i])
  }

  /** No space at either end. */
  predicate Trimmed(s: string) {
    s == "" || (!IsSpace(s[0]) && !IsSpace(s[|s| - 1]))
  }

  method TrimSpaces(text: string) returns (r: string)
    ensures r == TrimRight(TrimLeft(text))
  {
    r := text;
    while |r| > 0 && IsSpace(r[0])
      invariant TrimLeft(r) == TrimLeft(text)
    {
      r := r[1..];
    }
    ghost var rest := r;
    while |r| > 0 && IsSpace(r[|r| - 1])
      invariant TrimRight(r) == TrimRight(rest)
    {
      r := r[..|r| - 1];
    }
  }

  lemma {:induction false} TrimLeftPadded(a: string, r: string)
    requires AllSpaces(a) && (r == "" || !IsSpace(r[0]))
    ensures TrimLeft(a + r) == r
  {
    if a == "" {
      assert a + r == r;
    } else {
      assert (a + r)[1..] == a[1..] + r;
      TrimLeftPadded(a[1..], r);
    }
  }

  lemma {:induction false} TrimRightPadded(r: string, b: string)
    requires AllSpaces(b) && (r == "" || !IsSpace(r[|r| - 1]))
    ensures TrimRight(r + b) == r
  {
    if b == "" {
      assert r + b == r;
    } else {
      assert (r + b)[..|r + b| - 1] == r + b[..|b| - 1];
      TrimRightPadded(r, b[..|b| - 1]);
    }
  }

  /** Trimming takes off exactly the surrounding space. */
  lemma TrimPadded(a: string, r: string, b: string)
    requires AllSpaces(a) && AllSpaces(b) && Trimmed(r)
    ensures TrimRight(TrimLeft(a + r + b)) == r
  {
    if r == "" {
      assert a + r + b == (a + b) + "";
      TrimLeftPadded(a + b, "");
    } else {
      assert a + r + b == a + (r + b);
      TrimLeftPadded(a, r + b);
      TrimRightPadded(r, b);
    }
  }

  /** `s` denotes the ports `p`: a port, or two ports in order around the first dash. */
  predicate Denotes(s: string, p: Ports) {
    || (IsPort(s) && p == Ports(Decimal(s), Decimal(s)))
    || (exists d :: 0 <= d < |s| && s[d] == '-' && IsPort(s[..d]) && IsPort(s[d + 1..])
                    && p == Ports(Decimal(s[..d]), Decimal(s[d + 1..])) && p.lo <= p.hi)
  }

  /** A port text holds no dash, so a dashed text has one split at most. */
  lemma DashSplit(s: string, d: nat, p: Ports)
    requires d < |s| && s[d] == '-' && (forall i :: 0 <= i < d ==> s[i] != '-')
    ensures Denotes(s, p) <==> IsPort(s[..d]) && IsPort(s[d + 1..])
                               && p == Ports(Decimal(s[..d]), Decimal(s[d + 1..])) && p.lo <= p.hi
  {
    assert !IsPort(s) by { assert !IsDigit(s[d]); }
    forall e | d < e < |s| && s[e] == '-' ensures !IsPort(s[..e]) {
      assert s[..e][d] == '-';
    }
  }

  function FirstDash(s: string): (i: nat)
    requires '-' in s
    ensures i < |s| && s[i] == '-' && forall j :: 0 <= j < i ==> s[j] != '-'
  {
    if s[0] == '-' then 0 else 1 + FirstDash(s[1..])
  }

  /** A text denotes at most one range. */
  lemma DenotesOne(s: string, p: Ports, q: Ports)
    requires Denotes(s, p) && Denotes(s, q)
    ensures p == q && PortsOk(p)
  {
    if '-' in s {
      var i := FirstDash(s);
      DashSplit(s, i, p);
      DashSplit(s, i, q);
    }
  }

  /** The range a text denotes once surrounding space is gone. */
  ghost function Range(text: string): (r: Option<Ports>)
    ensures r.Some? ==> PortsOk(r.value)
  {
    var s := TrimRight(TrimLeft(text));
    if p :| Denotes(s, p) then DenotesOne(s, p, p); Some(p) else None
  }

  lemma RangeIs(text: string, p: Ports)
    requires Denotes(TrimRight(TrimLeft(text)), p)
    ensures Range(text) == Some(p)
  {
    DenotesOne(TrimRight(TrimLeft(text)), p, Range(text).value);
  }

  method ParseTrimmed(s: string) returns (r: Option<Ports>)
    ensures r.Some? ==> Denotes(s, r.value)
    ensures r.None? ==> forall p :: !Denotes(s, p)
  {
    if s == "" {
      return None;
    }
    var dash := -1;
    for i := 0 to |s|
      invariant dash == -1 && forall j :: 0 <= j < i ==> s[j] != '-'
    {
      if s[i] == '-' {
        dash := i;
        break;
      }
    }
    if dash < 0 {
      var v := ParsePort(s);
      return if v.Some? then Some(Ports(v.value, v.value)) else None;
    }
    var a := ParsePort(s[..dash]);
    var b := ParsePort(s[dash + 1..]);
    forall p ensures Denotes(s, p) <==> a.Some? && b.Some? && p == Ports(a.value, b.value) && p.lo <= p.hi {
      DashSplit(s, dash, p);
    }
    if a.None? || b.None? || a.value > b.value {
      return None;
    }
    return Some(Ports(a.value, b.value));
  }

  method ParsePortOrRange(text: string) returns (r: Option<Ports>)
    ensures r == Range(text)
  {
    var s := TrimSpaces(text);
    r := ParseTrimmed(s);
    if r.Some? {
      RangeIs(text, r.value);
    }
  }

  // ---- the canonical texts -------------------------------------------------

  lemma {:induction false} DigitsLength(v: nat, bound: nat, k: nat)
    requires v < bound && bound == Tens(k) && k >= 1
    ensures |Digits(v)| <= k
  {
    if v >= 10 && k > 1 {
      DigitsLength(v / 10, Tens(k - 1), k - 1);
    }
  }

  function Tens(k: nat): nat {
    if k == 0 then 1 else 10 * Tens(k - 1)
  }

  lemma DigitsIsPort(v: nat)
    requires 1 <= v <= 65535
    ensures IsPort(Digits(v))
  {
    assert Tens(3) == 1000 && Tens(5) == 100 * Tens(3);
    DigitsLength(v, 100000, 5);
  }

  /** How the decoder prints a range. */
  function Canonical(p: Ports): string {
    if p.hi == p.lo then Digits(p.lo) else Digits(p.lo) + "-" + Digits(p.hi)
  }

  lemma CanonicalDenotes(p: Ports)
    requires PortsOk(p)
    ensures Denotes(Canonical(p), p) && Trimmed(Canonical(p))
  {
    hide Digits, Decimal;
    DigitsIsPort(p.lo);
    DigitsIsPort(p.hi);
    var s, a, b := Canonical(p), Digits(p.lo), Digits(p.hi);
    if p.lo != p.hi {
      assert s[..|a|] == a && s[|a| + 1..] == b && s[|a|] == '-';
    }
    assert IsDigit(a[0]) && IsDigit(b[|b| - 1]);
    assert s[0] == a[0] && s[|s| - 1] == b[|b| - 1];
  }

  /** Parsing what the decoder prints, with any space around it, gives the range back. */
  lemma CanonicalRange(p: Ports, a: string, b: string)
    requires PortsOk(p) && AllSpaces(a) && AllSpaces(b)
    ensures Range(a + Canonical(p) + b) == Some(p)
  {
    hide Canonical, Denotes;
    CanonicalDenotes(p);
    TrimPadded(a, Canonical(p), b);
    RangeIs(a + Canonical(p) + b, p);
  }

  // ---- from texts to elements ----------------------------------------------

  /** The ranges a list of texts denotes, in order; texts that denote none are skipped. */
  ghost function RangesOf(texts: seq<string>): (ps: seq<Ports>)
    ensures forall p :: p in ps ==> PortsOk(p)
  {
    if texts == [] then []
    else
      var r := Range(texts[0]);
      (if r.Some? then [r.value] else []) + RangesOf(texts[1..])
  }

  method PortsToElements(texts: seq<string>) returns (elems: seq<Element>)
    ensures elems == Paired(PortIntervals(RangesOf(texts)), 2)
  {
    hide Range, ToBytes;
    elems := [];
    ghost var ps: seq<Ports> := [];
    for i := 0 to |texts|
      invariant RangesOf(texts) == ps + RangesOf(texts[i..])
      invariant elems == Paired(PortIntervals(ps), 2)
    {
      assert texts[i..][1..] == texts[i + 1..];
      var r := ParsePortOrRange(texts[i]);
      if r.Some? {
        var p := r.value;
        var end := (p.hi + 1) % 65536;
        elems := elems + [Element(ToBytes(p.lo, 2), [], false), Element(ToBytes(end, 2), [], true)];
        PairedSnoc(PortIntervals(ps), Interval(p.lo, end), 2);
        assert PortIntervals(ps + [p]) == PortIntervals(ps) + [Interval(p.lo, end)];
        ps := ps + [p];
      }
    }
    assert ps + [] == ps;
  }

  function CanonicalAll(ps: seq<Ports>): seq<string> {
    seq(|ps|, i requires 0 <= i < |ps| => Canonical(ps[i]))
  }

  /** The texts that are printed from the kernel's elements are read as the ranges that were
      written: re-applying what was observed applies the same set. */
  lemma {:induction false} CanonicalAllRead(ps: seq<Ports>)
    requires forall p :: p in ps ==> PortsOk(p)
    ensures RangesOf(CanonicalAll(ps)) == ps
  {
    hide Range, Canonical;
    if ps != [] {
      assert CanonicalAll(ps)[1..] == CanonicalAll(ps[1..]);
      CanonicalAllRead(ps[1..]);
      assert PortsOk(ps[0]);
      CanonicalRange(ps[0], "", "");
      assert "" + Canonical(ps[0]) + "" == Canonical(ps[0]);
      assert ps == [ps[0]] + ps[1..];
    }
  }

  /** From texts through the elements of either shape and back to texts: the canonical form
      of every text that denotes ports, in order; a second trip changes nothing. */
  lemma PortTextRoundTrip(texts: seq<string>)
    ensures var ps := RangesOf(texts);
            && PortsOf(Spelled(Paired(PortIntervals(ps), 2), 2, None)) == ps
            && PortsOf(Spelled(KeyEnded(PortIntervals(ps), 2), 2, None)) == ps
            && RangesOf(CanonicalAll(ps)) == ps
  {
    PortRoundTrip(RangesOf(texts));
    CanonicalAllRead(RangesOf(texts));
  }
}
