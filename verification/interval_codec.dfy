/**
 The interval-set codec: addresses, prefixes and ports to nftables set elements and back.
 Addresses are big-endian byte strings, 4 or 16 bytes long.
 */
module IntervalCodec {
  import opened Prelude
  import opened Octets
  import opened Powers

  // ---- big-endian numbers --------------------------------------------------

  function Value(b: Bytes): nat {
    if b == [] then 0 else Value(b[..|b| - 1]) * 256 + b[|b| - 1] as int
  }

  /** How many numbers `n` bytes can hold. */
  function Size(n: nat): (r: nat)
    ensures r > 0
  {
    Pow2(8 * n)
  }

  function ToBytes(v: nat, n: nat): (b: Bytes)
    ensures |b| == n
  {
    if n == 0 then [] else ToBytes(v / 256, n - 1) + [v % 256]
  }

  lemma SizeStep(n: nat)
    ensures Size(n + 1) == 256 * Size(n)
  {
    Pow2Add(8, 8 * n);
    Pow2Eight();
  }

  lemma {:induction false} ValueBound(b: Bytes)
    ensures Value(b) < Size(|b|)
  {
    if b != [] {
      ValueBound(b[..|b| - 1]);
      SizeStep(|b| - 1);
    }
  }

  lemma {:induction false} ValueOfBytes(v: nat, n: nat)
    requires v < Size(n)
    ensures Value(ToBytes(v, n)) == v
  {
    if n > 0 {
      SizeStep(n - 1);
      ValueOfBytes(v / 256, n - 1);
      var b := ToBytes(v, n);
      assert b[..n - 1] == ToBytes(v / 256, n - 1);
    }
  }

  lemma {:induction false} ValueConcat(a: Bytes, b: Bytes)
    ensures Value(a + b) == Value(a) * Size(|b|) + Value(b)
  {
    if b == [] {
      assert a + b == a;
    } else {
      var front := b[..|b| - 1];
      ValueConcat(a, front);
      SizeStep(|front|);
      assert (a + b)[..|a + b| - 1] == a + front;
      calc {
        Value(a + b);
        Value(a + front) * 256 + b[|b| - 1] as int;
        (Value(a) * Size(|front|) + Value(front)) * 256 + b[|b| - 1] as int;
        Value(a) * Size(|front|) * 256 + (Value(front) * 256 + b[|b| - 1] as int);
        Value(a) * Size(|b|) + Value(b);
      }
    }
  }

  // ---- addition in place ---------------------------------------------------

  /** One step of the carry, as numbers: `before + carry` splits into the byte written and
      the carry passed on. */
  lemma CarryStep(head: nat, low: nat, old_: nat, carry: nat, place: nat, total: nat)
    requires total == (head * 256 + old_ + carry) * place + low
    ensures total == (head + (old_ + carry) / 256) * (256 * place) + ((old_ + carry) % 256 * place + low)
  {
    var v := old_ + carry;
    assert v == v / 256 * 256 + v % 256;
    calc {
      (head * 256 + v) * place + low;
      ((head + v / 256) * 256 + v % 256) * place + low;
      (head + v / 256) * 256 * place + v % 256 * place + low;
    }
  }

  /** Halfway through the carry: the bytes right of `i` are done, those up to `i` untouched. */
  ghost predicate Carrying(was: Bytes, now: Bytes, idx: nat, i: int, c0: nat, carry: nat) {
    && |now| == |was| && -1 <= i <= idx < |was|
    && now[..i + 1] == was[..i + 1] && now[idx + 1..] == was[idx + 1..]
    && Value(was[..idx + 1]) + c0 == (Value(was[..i + 1]) + carry) * Size(idx - i) + Value(now[i + 1..idx + 1])
  }

  lemma CarryingStart(was: Bytes, idx: nat, c0: nat)
    requires idx < |was|
    ensures Carrying(was, was, idx, idx, c0, c0)
  {
    assert Size(0) == 1 && was[idx + 1..idx + 1] == [];
  }

  lemma CarryingStep(was: Bytes, now: Bytes, idx: nat, i: nat, c0: nat, carry: nat)
    requires Carrying(was, now, idx, i, c0, carry)
    ensures var v := now[i] as int + carry;
            var low: Byte := v % 256;
            Carrying(was, now[i := low], idx, i - 1, c0, v / 256)
  {
    hide Value, Size;
    var v := now[i] as int + carry;
    var digit: Byte := v % 256;
    var next := now[i := digit];
    var low := now[i + 1..idx + 1];
    assert was[i] == now[i] by { assert was[..i + 1][i] == now[..i + 1][i]; }
    assert was[..i + 1] == was[..i] + [was[i]];
    ValueSnoc(was[..i], was[i]);
    CarryStep(Value(was[..i]), Value(low), now[i] as int, carry, Size(idx - i), Value(was[..idx + 1]) + c0);
    SizeStep(idx - i);
    assert next[i..idx + 1] == [next[i]] + low;
    ValueConcat([next[i]], low);
    ValueSnoc([], next[i]);
    assert [] + [next[i]] == [next[i]];
    assert next[..i] == now[..i + 1][..i] == was[..i];
  }

  lemma ValueSnoc(b: Bytes, x: Byte)
    ensures Value(b + [x]) == Value(b) * 256 + x as int
    ensures Value([]) == 0
  {
    assert (b + [x])[..|b|] == b;
  }

  lemma CarryingEnd(was: Bytes, now: Bytes, idx: nat, i: int, c0: nat, carry: nat)
    requires Carrying(was, now, idx, i, c0, carry) && (i == -1 || carry == 0)
    ensures Value(was[..idx + 1]) + c0 == carry * Size(idx + 1) + Value(now[..idx + 1])
  {
    hide Value, Size;
    AddAtEnd(was[..i + 1], now[i + 1..idx + 1], carry, i);
    assert now[..idx + 1] == now[..i + 1] + now[i + 1..idx + 1];
  }

  /** Add `c0` at byte `idx`, carrying to the left; the carry out of byte 0 is dropped. */
  method AddAt(b: array<Byte>, idx: nat, c0: nat) returns (out: nat)
    requires idx < b.Length && c0 < 256
    modifies b
    ensures Value(old(b[..])[..idx + 1]) + c0 == out * Size(idx + 1) + Value(b[..idx + 1])
    ensures b[idx + 1..] == old(b[..])[idx + 1..]
  {
    hide Value, Size, Carrying;
    ghost var was := b[..];
    var carry: nat := c0;
    var i := idx;
    CarryingStart(was, idx, c0);
    while i >= 0 && carry != 0
      invariant -1 <= i <= idx && carry < 257
      invariant Carrying(was, b[..], idx, i, c0, carry)
      decreases i
    {
      var digit: nat := b[i];
      var v := digit + carry;
      CarryingStep(was, b[..], idx, i, c0, carry);
      ghost var now := b[..];
      var low: Byte := v % 256;
      b[i] := low;
      assert b[..] == now[i := low];
      carry := v / 256;
      i := i - 1;
    }
    out := carry;
    CarryingEnd(was, b[..], idx, i, c0, carry);
    CarryingTail(was, b[..], idx, i, c0, carry);
    assert b[..][..idx + 1] == b[..idx + 1] && b[..][idx + 1..] == b[idx + 1..];
  }

  lemma CarryingTail(was: Bytes, now: Bytes, idx: nat, i: int, c0: nat, carry: nat)
    requires Carrying(was, now, idx, i, c0, carry)
    ensures |now| == |was| && idx < |was| && now[idx + 1..] == was[idx + 1..]
  {
  }

  lemma AddAtEnd(high: Bytes, low: Bytes, carry: nat, i: int)
    requires i == |high| - 1 && (i == -1 || carry == 0)
    ensures (Value(high) + carry) * Size(|low|) + Value(low) == carry * Size(|high| + |low|) + Value(high + low)
  {
    ValueConcat(high, low);
    if i == -1 {
      assert high == [] && Value(high) == 0 && |high| + |low| == |low|;
    } else {
      assert (Value(high) + carry) * Size(|low|) == Value(high) * Size(|low|);
      assert carry * Size(|high| + |low|) == 0;
    }
  }

  /** Scaling the sum of the high parts by the weight of the low part. */
  lemma ScaledSum(highWas: nat, high: nat, low: nat, bit: nat, out: nat, place: nat, space: nat)
    requires highWas + bit == out * space + high
    ensures highWas * place + low + bit * place == (high * place + low) + out * (space * place)
  {
    calc {
      highWas * place + bit * place;
      (highWas + bit) * place;
      (out * space + high) * place;
      out * space * place + high * place;
      out * (space * place) + high * place;
    }
  }

  lemma SizeAdd(a: nat, b: nat)
    ensures Size(a + b) == Size(a) * Size(b)
  {
    Pow2Add(8 * a, 8 * b);
    assert 8 * a + 8 * b == 8 * (a + b);
  }

  lemma BitPlace(exp: nat)
    ensures Pow2(exp % 8) * Size(exp / 8) == Pow2(exp)
  {
    Pow2Add(exp % 8, 8 * (exp / 8));
    assert exp % 8 + 8 * (exp / 8) == exp;
  }

  lemma AddPow2Value(highWas: Bytes, high: Bytes, low: Bytes, exp: nat, out: nat)
    requires |high| == |highWas| > 0 && |low| == exp / 8
    requires Value(highWas) + Pow2(exp % 8) == out * Size(|high|) + Value(high)
    ensures Value(high + low) == (Value(highWas + low) + Pow2(exp)) % Size(|high| + |low|)
  {
    hide Value, Size, Pow2;
    ValueConcat(highWas, low);
    ValueConcat(high, low);
    ValueBound(high + low);
    BitPlace(exp);
    SizeAdd(|high|, |low|);
    ScaledSum(Value(highWas), Value(high), Value(low), Pow2(exp % 8), out, Size(|low|), Size(|high|));
    ModUnique(Value(highWas + low) + Pow2(exp), Value(high + low), out, Size(|high| + |low|));
  }

  /** a + 2^exp in place: modulo the address space when the bit is inside it, all ones when
      it is not. */
  method AddPow2(b: array<Byte>, exp: nat)
    modifies b
    ensures exp < 8 * b.Length ==> Value(b[..]) == (Value(old(b[..])) + Pow2(exp)) % Size(b.Length)
    ensures exp >= 8 * b.Length ==> forall i :: 0 <= i < b.Length ==> b[i] == 255
  {
    var idx := b.Length - 1 - exp / 8;
    if idx < 0 {
      var i := 0;
      while i < b.Length
        invariant 0 <= i <= b.Length && forall j :: 0 <= j < i ==> b[j] == 255
      {
        b[i] := 255;
        i := i + 1;
      }
      return;
    }
    ghost var was := b[..];
    SmallPow2(exp % 8);
    var out := AddAt(b, idx, Pow2(exp % 8));
    AddPow2Value(was[..idx + 1], b[..idx + 1], b[idx + 1..], exp, out);
    assert b[..] == b[..idx + 1] + b[idx + 1..] && was == was[..idx + 1] + was[idx + 1..];
  }

  lemma SmallPow2(k: nat)
    requires k < 8
    ensures Pow2(k) < 256
  {
    Pow2Eight();
    Pow2Monotone(k, 8);
  }

  // ---- elements ------------------------------------------------------------

  /** A set element: a key, and either the interval-end mark or the exclusive end beside it. */
  datatype Element = Element(key: Bytes, keyEnd: Bytes, intervalEnd: bool)

  /** [start, end): the end is a number of the same width. */
  datatype Interval = Interval(start: nat, end: nat)

  ghost predicate Fits(ivs: seq<Interval>, n: nat) {
    forall iv :: iv in ivs ==> iv.start < Size(n) && iv.end < Size(n)
  }

  function PairOf(iv: Interval, n: nat): seq<Element> {
    [Element(ToBytes(iv.start, n), [], false), Element(ToBytes(iv.end, n), [], true)]
  }

  /** The shape the encoders write: a start element and an interval-end element. */
  function Paired(ivs: seq<Interval>, n: nat): seq<Element> {
    if ivs == [] then [] else PairOf(ivs[0], n) + Paired(ivs[1..], n)
  }

  /** The shape the kernel gives back: one element with both ends. */
  function KeyEnded(ivs: seq<Interval>, n: nat): seq<Element> {
    seq(|ivs|, i requires 0 <= i < |ivs| => Element(ToBytes(ivs[i].start, n), ToBytes(ivs[i].end, n), false))
  }

  lemma {:induction false} PairedSnoc(ivs: seq<Interval>, iv: Interval, n: nat)
    ensures Paired(ivs + [iv], n) == Paired(ivs, n) + PairOf(iv, n)
  {
    if ivs == [] {
      assert ivs + [iv] == [iv] && [iv][1..] == [];
    } else {
      assert (ivs + [iv])[1..] == ivs[1..] + [iv];
      PairedSnoc(ivs[1..], iv, n);
    }
  }

  function FromBytes(b: Bytes, n: nat): Option<nat> {
    if |b| == n then Some(Value(b)) else None
  }

  /** The intervals a list of elements spells, in either shape; `pending` is a start that
      waits for its end. Elements of the wrong width are skipped. */
  function Spelled(elems: seq<Element>, n: nat, pending: Option<nat>): seq<Interval> {
    if elems == [] then []
    else
      var e, rest := elems[0], elems[1..];
      if !e.intervalEnd && |e.keyEnd| > 0 then
        var s, t := FromBytes(e.key, n), FromBytes(e.keyEnd, n);
        (if s.Some? && t.Some? then [Interval(s.value, t.value)] else []) + Spelled(rest, n, None)
      else if !e.intervalEnd then Spelled(rest, n, FromBytes(e.key, n))
      else if pending.Some? then
        var t := FromBytes(e.key, n);
        (if t.Some? then [Interval(pending.value, t.value)] else []) + Spelled(rest, n, None)
      else Spelled(rest, n, None)
  }

  /** What one element adds to the intervals, and the start it leaves pending. */
  function Emits(e: Element, n: nat, pending: Option<nat>): seq<Interval> {
    var k, t := FromBytes(e.key, n), FromBytes(e.keyEnd, n);
    if !e.intervalEnd then (if |e.keyEnd| > 0 && k.Some? && t.Some? then [Interval(k.value, t.value)] else [])
    else if pending.Some? && k.Some? then [Interval(pending.value, k.value)] else []
  }

  function Pends(e: Element, n: nat): Option<nat> {
    if !e.intervalEnd && |e.keyEnd| == 0 then FromBytes(e.key, n) else None
  }

  lemma SpelledFrom(elems: seq<Element>, i: nat, n: nat, pending: Option<nat>)
    requires i < |elems|
    ensures Spelled(elems[i..], n, pending) ==
            Emits(elems[i], n, pending) + Spelled(elems[i + 1..], n, Pends(elems[i], n))
  {
    hide FromBytes;
    assert elems[i..][1..] == elems[i + 1..];
  }

  /** The interval that element `i` completes, seen from the elements alone: both ends are in it,
      or it is an end right behind a start; ends and starts of another width count for nothing. */
  function CompletedAt(elems: seq<Element>, n: nat, i: nat): seq<Interval>
    requires i < |elems|
  {
    var e := elems[i];
    if !e.intervalEnd then
      (if e.keyEnd != [] && |e.key| == |e.keyEnd| == n then [Interval(Value(e.key), Value(e.keyEnd))] else [])
    else if |e.key| == n && i > 0 && !elems[i - 1].intervalEnd && elems[i - 1].keyEnd == [] && |elems[i - 1].key| == n then
      [Interval(Value(elems[i - 1].key), Value(e.key))]
    else []
  }

  function Completed(elems: seq<Element>, n: nat, i: nat): seq<Interval>
    requires i <= |elems|
  {
    if i == 0 then [] else Completed(elems, n, i - 1) + CompletedAt(elems, n, i - 1)
  }

  lemma {:induction false} SpelledUpTo(elems: seq<Element>, n: nat, i: nat)
    requires i <= |elems|
    ensures Spelled(elems, n, None) ==
            Completed(elems, n, i) + Spelled(elems[i..], n, if i == 0 then None else Pends(elems[i - 1], n))
  {
    hide Spelled, Pends, Emits, CompletedAt;
    if i == 0 {
      assert elems[0..] == elems;
    } else {
      var pending := if i == 1 then None else Pends(elems[i - 2], n);
      SpelledUpTo(elems, n, i - 1);
      SpelledFrom(elems, i - 1, n, pending);
      CompletedIsEmitted(elems, n, i - 1);
      var done, added, rest := Completed(elems, n, i - 1), Emits(elems[i - 1], n, pending), Spelled(elems[i..], n, Pends(elems[i - 1], n));
      assert done + (added + rest) == (done + added) + rest;
    }
  }

  lemma CompletedIsEmitted(elems: seq<Element>, n: nat, i: nat)
    requires i < |elems|
    ensures CompletedAt(elems, n, i) == Emits(elems[i], n, if i == 0 then None else Pends(elems[i - 1], n))
  {
    hide Value;
  }

  /** Whatever the elements are, what the decoders read is what each element completes with at most
      the one before it: the pending start never reaches further. */
  lemma SpelledIsLocal(elems: seq<Element>, n: nat)
    ensures Spelled(elems, n, None) == Completed(elems, n, |elems|)
  {
    hide Spelled, Completed;
    SpelledUpTo(elems, n, |elems|);
    assert elems[|elems|..] == [];
    NothingSpelled(n, if elems == [] then None else Pends(elems[|elems| - 1], n));
  }

  /** The decoders' loop. */
  method ReadIntervals(elems: seq<Element>, n: nat) returns (out: seq<Interval>)
    ensures out == Spelled(elems, n, None)
    ensures out == Completed(elems, n, |elems|)
  {
    hide Spelled, FromBytes, Completed;
    SpelledIsLocal(elems, n);
    out := [];
    var pending := None;
    assert elems[0..] == elems;
    for i := 0 to |elems|
      invariant Spelled(elems, n, None) == out + Spelled(elems[i..], n, pending)
    {
      var e := elems[i];
      SpelledFrom(elems, i, n, pending);
      ghost var added, rest := Emits(e, n, pending), Spelled(elems[i + 1..], n, Pends(e, n));
      assert (out + added) + rest == out + (added + rest);
      if !e.intervalEnd && |e.keyEnd| > 0 {
        pending := None;
        var s, t := FromBytes(e.key, n), FromBytes(e.keyEnd, n);
        if s.Some? && t.Some? {
          out := out + [Interval(s.value, t.value)];
        }
      } else if !e.intervalEnd {
        pending := FromBytes(e.key, n);
      } else if pending.Some? {
        var t := FromBytes(e.key, n);
        if t.Some? {
          out := out + [Interval(pending.value, t.value)];
        }
        pending := None;
      }
    }
    assert elems[|elems|..] == [];
    NothingSpelled(n, pending);
  }

  lemma NothingSpelled(n: nat, pending: Option<nat>)
    ensures Spelled([], n, pending) == []
  {
  }

  /** What is written is what is read back, in the shape written ... */
  lemma {:induction false} PairedRoundTrip(ivs: seq<Interval>, n: nat)
    requires Fits(ivs, n)
    ensures Spelled(Paired(ivs, n), n, None) == ivs
  {
    if ivs != [] {
      var iv := ivs[0];
      ValueOfBytes(iv.start, n);
      ValueOfBytes(iv.end, n);
      PairedRoundTrip(ivs[1..], n);
      var elems := Paired(ivs, n);
      assert elems[1..][1..] == Paired(ivs[1..], n);
      assert elems[1..][0] == Element(ToBytes(iv.end, n), [], true);
      assert Spelled(elems, n, None) == Spelled(elems[1..], n, Some(iv.start));
      assert ivs == [iv] + ivs[1..];
    }
  }

  /** ... and in the shape the kernel turns it into. */
  lemma {:induction false} KeyEndedRoundTrip(ivs: seq<Interval>, n: nat)
    requires Fits(ivs, n) && n > 0
    ensures Spelled(KeyEnded(ivs, n), n, None) == ivs
  {
    hide Spelled, ToBytes, FromBytes;
    var elems := KeyEnded(ivs, n);
    if ivs == [] {
      NothingSpelled(n, None);
    } else {
      var iv := ivs[0];
      ReadsBack(iv.start, n);
      ReadsBack(iv.end, n);
      KeyEndedRoundTrip(ivs[1..], n);
      assert elems[0..] == elems && elems[1..] == KeyEnded(ivs[1..], n);
      SpelledFrom(elems, 0, n, None);
      assert ivs == [iv] + ivs[1..];
    }
  }

  lemma ReadsBack(v: nat, n: nat)
    requires v < Size(n)
    ensures |ToBytes(v, n)| == n && FromBytes(ToBytes(v, n), n) == Some(v)
  {
    ValueOfBytes(v, n);
  }

  lemma {:induction false} BytesOfValue(b: Bytes)
    ensures ToBytes(Value(b), |b|) == b
  {
    if b != [] {
      var front, last := b[..|b| - 1], b[|b| - 1];
      BytesOfValue(front);
      LastByte(Value(front), last);
      assert b == front + [last];
    }
  }

  lemma LastByte(q: nat, r: Byte)
    ensures (q * 256 + r) / 256 == q && (q * 256 + r) % 256 == r
  {
  }

  lemma {:induction false} AllOnes(b: Bytes)
    requires forall i :: 0 <= i < |b| ==> b[i] == 255
    ensures Value(b) == Size(|b|) - 1
  {
    if b != [] {
      AllOnes(b[..|b| - 1]);
      SizeStep(|b| - 1);
    }
  }

  // ---- bare IPs ------------------------------------------------------------

  /** A parsed address of one family. */
  datatype Addr = Addr(v6: bool, num: nat)

  function Width(v6: bool): nat {
    if v6 then 16 else 4
  }

  predicate AddrOk(a: Addr) {
    a.num < Size(Width(a.v6))
  }

  /** The encoder skips texts that do not parse, the other family, and the last address. */
  predicate IpKept(a: Option<Addr>, isV6: bool) {
    a.Some? && a.value.v6 == isV6 && a.value.num + 1 < Size(Width(isV6))
  }

  function IpsKeptOne(a: Option<Addr>, isV6: bool): seq<nat> {
    if IpKept(a, isV6) then [a.value.num] else []
  }

  function IpsKept(ips: seq<Option<Addr>>, isV6: bool): seq<nat> {
    if ips == [] then [] else IpsKeptOne(ips[0], isV6) + IpsKept(ips[1..], isV6)
  }

  lemma IpsKeptStep(ips: seq<Option<Addr>>, isV6: bool, i: nat)
    requires i < |ips|
    ensures IpsKept(ips[i..], isV6) == IpsKeptOne(ips[i], isV6) + IpsKept(ips[i + 1..], isV6)
  {
    assert ips[i..][1..] == ips[i + 1..];
  }

  lemma NoIpsKept(isV6: bool)
    ensures IpsKept([], isV6) == [] && Paired(IpIntervals([]), Width(isV6)) == []
  {
  }

  /** One more address, one more pair. */
  lemma IpsPairedSnoc(nums: seq<nat>, a: nat, n: nat)
    ensures Paired(IpIntervals(nums + [a]), n) ==
            Paired(IpIntervals(nums), n) + [Element(ToBytes(a, n), [], false), Element(ToBytes(a + 1, n), [], true)]
  {
    PairedSnoc(IpIntervals(nums), Interval(a, a + 1), n);
    assert IpIntervals(nums + [a]) == IpIntervals(nums) + [Interval(a, a + 1)];
  }

  function IpIntervals(nums: seq<nat>): seq<Interval> {
    seq(|nums|, i requires 0 <= i < |nums| => Interval(nums[i], nums[i] + 1))
  }

  method IpsToElements(ips: seq<Option<Addr>>, isV6: bool) returns (elems: seq<Element>)
    ensures elems == Paired(IpIntervals(IpsKept(ips, isV6)), Width(isV6))
  {
    hide IpsKept, Paired, IpIntervals, ToBytes, Width, Size;
    var n := Width(isV6);
    elems := [];
    ghost var nums: seq<nat> := [];
    NoIpsKept(isV6);
    assert ips[0..] == ips;
    for i := 0 to |ips|
      invariant IpsKept(ips, isV6) == nums + IpsKept(ips[i..], isV6)
      invariant elems == Paired(IpIntervals(nums), n)
    {
      IpsKeptStep(ips, isV6, i);
      if ips[i].Some? && ips[i].value.v6 == isV6 {
        var a := ips[i].value.num;
        if a + 1 < Size(n) {
          IpsPairedSnoc(nums, a, n);
          elems := elems + [Element(ToBytes(a, n), [], false), Element(ToBytes(a + 1, n), [], true)];
          nums := nums + [a];
        }
      }
    }
    assert ips[|ips|..] == [] && nums + [] == nums;
  }

  /** Only degenerate intervals are bare IPs. */
  function IpsOf(ivs: seq<Interval>): seq<nat> {
    if ivs == [] then []
    else (if ivs[0].start + 1 == ivs[0].end then [ivs[0].start] else []) + IpsOf(ivs[1..])
  }

  method DecodeAddrElements(elems: seq<Element>, isV6: bool) returns (out: seq<nat>)
    ensures out == IpsOf(Spelled(elems, Width(isV6), None))
  {
    var ivs := ReadIntervals(elems, Width(isV6));
    out := [];
    for i := 0 to |ivs|
      invariant IpsOf(ivs) == out + IpsOf(ivs[i..])
    {
      assert ivs[i..][1..] == ivs[i + 1..];
      if ivs[i].start + 1 == ivs[i].end {
        out := out + [ivs[i].start];
      }
    }
  }

  lemma {:induction false} IpsOfIntervals(nums: seq<nat>)
    ensures IpsOf(IpIntervals(nums)) == nums
  {
    if nums != [] {
      assert IpIntervals(nums)[1..] == IpIntervals(nums[1..]);
      IpsOfIntervals(nums[1..]);
      assert nums == [nums[0]] + nums[1..];
    }
  }

  lemma {:induction false} IpsKeptFit(ips: seq<Option<Addr>>, isV6: bool)
    ensures forall a :: a in IpsKept(ips, isV6) ==> a + 1 < Size(Width(isV6))
  {
    if ips != [] {
      IpsKeptFit(ips[1..], isV6);
    }
  }

  /** Decoding what was encoded, in either shape, gives back the kept addresses. */
  lemma IpRoundTrip(ips: seq<Option<Addr>>, isV6: bool)
    ensures var n := Width(isV6);
            var ivs := IpIntervals(IpsKept(ips, isV6));
            && IpsOf(Spelled(Paired(ivs, n), n, None)) == IpsKept(ips, isV6)
            && IpsOf(Spelled(KeyEnded(ivs, n), n, None)) == IpsKept(ips, isV6)
  {
    var n := Width(isV6);
    var nums := IpsKept(ips, isV6);
    IpsKeptFit(ips, isV6);
    forall iv | iv in IpIntervals(nums) ensures iv.start < Size(n) && iv.end < Size(n) {
      var i :| 0 <= i < |nums| && IpIntervals(nums)[i] == iv;
      assert nums[i] in nums;
    }
    PairedRoundTrip(IpIntervals(nums), n);
    KeyEndedRoundTrip(IpIntervals(nums), n);
    IpsOfIntervals(nums);
  }

  // ---- CIDRs ---------------------------------------------------------------

  datatype CidrRecord = Cidr(v6: bool, num: nat, bits: nat)

  /** A parsed prefix: the address fits its family and the length fits the address. */
  type Cidr = c: CidrRecord | c.num < Size(Width(c.v6)) && c.bits <= 8 * Width(c.v6)
    witness Cidr(false, 0, 0)

  function HostBits(c: Cidr): nat
  {
    8 * Width(c.v6) - c.bits
  }

  /** The address with its host bits cleared. */
  function Masked(c: Cidr): nat
  {
    c.num / Pow2(HostBits(c)) * Pow2(HostBits(c))
  }

  /** What the encoder writes as the exclusive end. */
  function NextNetworkValue(net: nat, hostBits: nat, n: nat): nat {
    if hostBits < 8 * n then (net + Pow2(hostBits)) % Size(n) else Size(n) - 1
  }

  method NextNetwork(net: nat, bits: nat, n: nat) returns (end: Bytes)
    requires net < Size(n) && bits <= 8 * n
    ensures end == ToBytes(NextNetworkValue(net, 8 * n - bits, n), n)
  {
    hide Value, Pow2, ToBytes;
    var start := ToBytes(net, n);
    var b := new Byte[n](i requires 0 <= i < n => start[i]);
    assert b[..] == start;
    AddPow2(b, 8 * n - bits);
    ValueOfBytes(net, n);
    if bits == 0 {
      AllOnes(b[..]);
    }
    BytesOfValue(b[..]);
    end := b[..];
  }

  /** The block ends before the last address of its family. */
  predicate EndsBeforeLast(c: Cidr)
  {
    Masked(c) + Pow2(HostBits(c)) < Size(Width(c.v6))
  }

  function CidrInterval(c: Cidr): Interval
  {
    Interval(Masked(c), NextNetworkValue(Masked(c), HostBits(c), Width(c.v6)))
  }

  function CidrIntervalsOne(c: Option<Cidr>, isV6: bool): seq<Interval> {
    if c.Some? && c.value.v6 == isV6 then [CidrInterval(c.value)] else []
  }

  function CidrIntervals(cs: seq<Option<Cidr>>, isV6: bool): seq<Interval> {
    if cs == [] then [] else CidrIntervalsOne(cs[0], isV6) + CidrIntervals(cs[1..], isV6)
  }

  lemma CidrIntervalsStep(cs: seq<Option<Cidr>>, isV6: bool, i: nat)
    requires i < |cs|
    ensures CidrIntervals(cs[i..], isV6) == CidrIntervalsOne(cs[i], isV6) + CidrIntervals(cs[i + 1..], isV6)
  {
    assert cs[i..][1..] == cs[i + 1..];
  }

  lemma NoCidrs(isV6: bool)
    ensures CidrIntervals([], isV6) == [] && Paired([], Width(isV6)) == []
  {
  }

  lemma MulOrder(a: nat, b: nat, h: nat)
    requires a <= b
    ensures a * h <= b * h
  {
    assert (b - a) * h >= 0;
  }

  /** A multiple of `h` at or below a number under `blocks * h` has room for `h` more. */
  lemma BlockFits(num: nat, h: nat, blocks: nat)
    requires h > 0 && num < blocks * h
    ensures num / h * h <= num && num / h * h + h <= blocks * h
  {
    var q := num / h;
    assert num == q * h + num % h;
    if blocks <= q {
      MulOrder(blocks, q, h);
    } else {
      MulOrder(q + 1, blocks, h);
    }
  }

  lemma MaskedFits(c: Cidr)
    ensures Masked(c) <= c.num && Masked(c) + Pow2(HostBits(c)) <= Size(Width(c.v6))
  {
    hide Pow2;
    Pow2Add(c.bits, HostBits(c));
    BlockFits(c.num, Pow2(HostBits(c)), Pow2(c.bits));
  }

  method CidrToElements(c: Cidr) returns (pair: seq<Element>)
    ensures pair == PairOf(CidrInterval(c), Width(c.v6))
  {
    hide Pow2, Masked, ToBytes, NextNetworkValue;
    var n := Width(c.v6);
    MaskedFits(c);
    var end := NextNetwork(Masked(c), c.bits, n);
    pair := [Element(ToBytes(Masked(c), n), [], false), Element(end, [], true)];
  }

  method CidrsToElements(cs: seq<Option<Cidr>>, isV6: bool) returns (elems: seq<Element>)
    ensures elems == Paired(CidrIntervals(cs, isV6), Width(isV6))
  {
    hide Pow2, PairOf, CidrInterval, Masked, Paired, CidrIntervals, Width, Size;
    elems := [];
    ghost var ivs := [];
    NoCidrs(isV6);
    assert cs[0..] == cs;
    for i := 0 to |cs|
      invariant CidrIntervals(cs, isV6) == ivs + CidrIntervals(cs[i..], isV6)
      invariant elems == Paired(ivs, Width(isV6))
    {
      CidrIntervalsStep(cs, isV6, i);
      if cs[i].Some? && cs[i].value.v6 == isV6 {
        var pair := CidrToElements(cs[i].value);
        PairedSnoc(ivs, CidrInterval(cs[i].value), Width(isV6));
        elems := elems + pair;
        ivs := ivs + [CidrInterval(cs[i].value)];
      }
    }
    assert cs[|cs|..] == [] && ivs + [] == ivs;
  }

  /** The prefix length of [start, end), when its size is a power of two. */
  function PrefixFromInterval(start: nat, end: nat, totalBits: nat): Option<nat> {
    if end <= start then None
    else
      var diff := end - start;
      var k := BitLen(diff) - 1;
      if k < 0 || diff != Pow2(k) || k > totalBits then None else Some(totalBits - k)
  }

  /** It finds a length exactly when there is one, and then that one. */
  lemma PrefixFromIntervalExact(start: nat, end: nat, totalBits: nat, bits: nat)
    ensures PrefixFromInterval(start, end, totalBits) == Some(bits) <==>
            bits <= totalBits && end == start + Pow2(totalBits - bits)
  {
    if end > start {
      BitLenBounds(end - start);
    }
    if bits <= totalBits {
      BitLenOfPow2(totalBits - bits);
    }
  }

  /** A decoded prefix: network number and length. */
  function CidrsOf(ivs: seq<Interval>, totalBits: nat): seq<(nat, nat)> {
    if ivs == [] then []
    else
      var p := PrefixFromInterval(ivs[0].start, ivs[0].end, totalBits);
      (if p.Some? then [(ivs[0].start, p.value)] else []) + CidrsOf(ivs[1..], totalBits)
  }

  method DecodeCidrElements(elems: seq<Element>, isV6: bool) returns (out: seq<(nat, nat)>)
    ensures out == CidrsOf(Spelled(elems, Width(isV6), None), 8 * Width(isV6))
  {
    hide Spelled, Completed, PrefixFromInterval, Width;
    var ivs := ReadIntervals(elems, Width(isV6));
    out := [];
    for i := 0 to |ivs|
      invariant CidrsOf(ivs, 8 * Width(isV6)) == out + CidrsOf(ivs[i..], 8 * Width(isV6))
    {
      assert ivs[i..][1..] == ivs[i + 1..];
      var p := PrefixFromInterval(ivs[i].start, ivs[i].end, 8 * Width(isV6));
      if p.Some? {
        out := out + [(ivs[i].start, p.value)];
      }
    }
  }

  /** What survives the round trip: the prefixes of the family, masked, except those whose
      block ends at the last address. */
  function CidrsSurviving(cs: seq<Option<Cidr>>, isV6: bool): seq<(nat, nat)>
  {
    if cs == [] then []
    else (if cs[0].Some? && cs[0].value.v6 == isV6 && EndsBeforeLast(cs[0].value)
          then [(Masked(cs[0].value), cs[0].value.bits)] else [])
         + CidrsSurviving(cs[1..], isV6)
  }

  /** The interval of a prefix, by cases: short of the end of the space, up to it, all of it. */
  lemma CidrIntervalCases(c: Cidr)
    ensures EndsBeforeLast(c) ==> c.bits > 0
    ensures var iv, n := CidrInterval(c), Width(c.v6);
            && iv.start == Masked(c) < Size(n) && iv.end < Size(n)
            && (EndsBeforeLast(c) ==> iv.end == iv.start + Pow2(HostBits(c)))
            && (!EndsBeforeLast(c) && c.bits > 0 ==> iv.end == 0)
            && (c.bits == 0 ==> iv.start == 0 && iv.end == Size(n) - 1)
  {
    hide Pow2;
    MaskedFits(c);
    var h := Pow2(HostBits(c));
    if c.bits == 0 {
      assert HostBits(c) == 8 * Width(c.v6) && h == Size(Width(c.v6));
    } else if EndsBeforeLast(c) {
      ModUnique(Masked(c) + h, Masked(c) + h, 0, Size(Width(c.v6)));
    } else {
      ModUnique(Masked(c) + h, 0, 1, Size(Width(c.v6)));
    }
  }

  /** One prefix is read back exactly when its block ends before the last address. */
  lemma CidrReadBack(c: Cidr)
    ensures var iv := CidrInterval(c);
            PrefixFromInterval(iv.start, iv.end, 8 * Width(c.v6)) ==
            (if EndsBeforeLast(c) then Some(c.bits) else None)
  {
    hide Pow2, Masked, EndsBeforeLast, CidrInterval;
    CidrIntervalCases(c);
    var iv, n := CidrInterval(c), Width(c.v6);
    if EndsBeforeLast(c) {
      PrefixFromIntervalExact(iv.start, iv.end, 8 * n, c.bits);
    } else if c.bits == 0 {
      WholeSpaceNotRead(8 * n);
    }
  }

  /** One less than a power of two is none, from four on. */
  lemma OddNotPow2(k: nat, e: nat)
    requires k >= 2
    ensures Pow2(e) != Pow2(k) - 1
  {
    assert Pow2(k) == 2 * Pow2(k - 1) && Pow2(k - 1) == 2 * Pow2(k - 2);
    if e > 0 {
      assert Pow2(e) == 2 * Pow2(e - 1);
    }
  }

  lemma WholeSpaceNotRead(k: nat)
    requires k >= 2
    ensures PrefixFromInterval(0, Pow2(k) - 1, k) == None
  {
    forall bits: nat | bits <= k ensures PrefixFromInterval(0, Pow2(k) - 1, k) != Some(bits) {
      PrefixFromIntervalExact(0, Pow2(k) - 1, k, bits);
      OddNotPow2(k, k - bits);
    }
  }

  lemma {:induction false} CidrIntervalsRead(cs: seq<Option<Cidr>>, isV6: bool)
    ensures Fits(CidrIntervals(cs, isV6), Width(isV6))
    ensures CidrsOf(CidrIntervals(cs, isV6), 8 * Width(isV6)) == CidrsSurviving(cs, isV6)
  {
    if cs != [] {
      CidrIntervalsRead(cs[1..], isV6);
      if cs[0].Some? && cs[0].value.v6 == isV6 {
        CidrReadBack(cs[0].value);
        CidrIntervalCases(cs[0].value);
        assert CidrIntervals(cs, isV6)[1..] == CidrIntervals(cs[1..], isV6);
      } else {
        assert CidrIntervals(cs, isV6) == CidrIntervals(cs[1..], isV6);
      }
    }
  }

  /** Decoding what was encoded, in either shape, gives back the surviving prefixes. */
  lemma CidrRoundTrip(cs: seq<Option<Cidr>>, isV6: bool)
    ensures var n := Width(isV6);
            var ivs := CidrIntervals(cs, isV6);
            && CidrsOf(Spelled(Paired(ivs, n), n, None), 8 * n) == CidrsSurviving(cs, isV6)
            && CidrsOf(Spelled(KeyEnded(ivs, n), n, None), 8 * n) == CidrsSurviving(cs, isV6)
  {
    CidrIntervalsRead(cs, isV6);
    PairedRoundTrip(CidrIntervals(cs, isV6), Width(isV6));
    KeyEndedRoundTrip(CidrIntervals(cs, isV6), Width(isV6));
  }

  // ---- ports ---------------------------------------------------------------

  /** A port range as the parser returns it: a single port has equal ends. */
  datatype Ports = Ports(lo: nat, hi: nat)

  predicate PortsOk(p: Ports) {
    1 <= p.lo <= p.hi <= 65535
  }

  function PortIntervals(ps: seq<Ports>): seq<Interval> {
    seq(|ps|, i requires 0 <= i < |ps| => Interval(ps[i].lo, (ps[i].hi + 1) % 65536))
  }

  /** The decoder's end: 0 stands for the end of the port space; other ends at or below the
      start are malformed. */
  function PortsOfOne(iv: Interval): seq<Ports> {
    if iv.end == 0 then [Ports(iv.start, 65535)]
    else if iv.end <= iv.start then []
    else [Ports(iv.start, iv.end - 1)]
  }

  function PortsOf(ivs: seq<Interval>): seq<Ports> {
    if ivs == [] then [] else PortsOfOne(ivs[0]) + PortsOf(ivs[1..])
  }

  lemma PortsOfStep(ivs: seq<Interval>, i: nat)
    requires i < |ivs|
    ensures PortsOf(ivs[i..]) == PortsOfOne(ivs[i]) + PortsOf(ivs[i + 1..])
  {
    assert ivs[i..][1..] == ivs[i + 1..];
  }

  method DecodePortElements(elems: seq<Element>) returns (out: seq<Ports>)
    ensures out == PortsOf(Spelled(elems, 2, None))
  {
    hide PortsOf, Spelled;
    var ivs := ReadIntervals(elems, 2);
    out := [];
    assert ivs[0..] == ivs;
    for i := 0 to |ivs|
      invariant PortsOf(ivs) == out + PortsOf(ivs[i..])
    {
      PortsOfStep(ivs, i);
      if ivs[i].end == 0 {
        out := out + [Ports(ivs[i].start, 65535)];
      } else if ivs[i].end > ivs[i].start {
        out := out + [Ports(ivs[i].start, ivs[i].end - 1)];
      }
    }
    NoPorts();
    assert ivs[|ivs|..] == [];
  }

  lemma NoPorts()
    ensures PortsOf([]) == []
  {
  }

  lemma {:induction false} PortsOfIntervals(ps: seq<Ports>)
    requires forall p :: p in ps ==> PortsOk(p)
    ensures PortsOf(PortIntervals(ps)) == ps
  {
    if ps != [] {
      assert PortIntervals(ps)[1..] == PortIntervals(ps[1..]);
      PortsOfIntervals(ps[1..]);
      assert PortsOk(ps[0]);
      assert ps == [ps[0]] + ps[1..];
    }
  }

  lemma SizeOfPorts()
    ensures Size(2) == 65536
  {
    SizeStep(1);
    SizeStep(0);
  }

  /** Every list of ports and ranges, those ending at 65535 included, is read back as it was
      written, in either shape. */
  lemma PortRoundTrip(ps: seq<Ports>)
    requires forall p :: p in ps ==> PortsOk(p)
    ensures PortsOf(Spelled(Paired(PortIntervals(ps), 2), 2, None)) == ps
    ensures PortsOf(Spelled(KeyEnded(PortIntervals(ps), 2), 2, None)) == ps
  {
    var ivs := PortIntervals(ps);
    SizeOfPorts();
    forall iv | iv in ivs ensures iv.start < Size(2) && iv.end < Size(2) {
      var i :| 0 <= i < |ivs| && ivs[i] == iv;
      assert PortsOk(ps[i]);
    }
    PairedRoundTrip(ivs, 2);
    KeyEndedRoundTrip(ivs, 2);
    PortsOfIntervals(ps);
  }

  // ---- the same in plain numbers -------------------------------------------

  lemma SpaceSizes()
    ensures Size(4) == 0x1_0000_0000 && Size(16) == 0x1_0000_0000_0000_0000_0000_0000_0000_0000
  {
    hide Pow2;
    SizeOfPorts();
    SizeAdd(2, 2);
    SizeAdd(4, 4);
    SizeAdd(8, 8);
  }

  /** Byte `i` of an encoded number is its digit to the base 256, the most significant first. */
  lemma {:induction false} ByteAt(v: nat, n: nat, i: nat)
    requires i < n
    ensures ToBytes(v, n)[i] == v / Size(n - 1 - i) % 256
  {
    if i + 1 < n {
      ByteAt(v / 256, n - 1, i);
      SizeStep(n - 2 - i);
      DivTwice(v, 256, Size(n - 2 - i));
    } else {
      assert Size(0) == 1;
    }
  }

  lemma DivTwice(x: nat, a: nat, b: nat)
    requires a > 0 && b > 0 && a * b > 0
    ensures x / (a * b) == x / a / b
  {
    var y, q := x / a, x / a / b;
    var r := y % b;
    calc {
      x;
      y * a + x % a;
      (q * b + r) * a + x % a;
      q * (a * b) + (r * a + x % a);
    }
    MulOrder(r + 1, b, a);
    ModUnique(x, r * a + x % a, q, a * b);
  }

  /** The pair of elements of an interval: the start, then the end with the end flag, each spelled
      most significant byte first. */
  lemma PairSpelled(iv: Interval, n: nat, i: nat)
    requires i < n
    ensures var pair := Paired([iv], n);
            && |pair| == 2 && |pair[0].key| == |pair[1].key| == n
            && !pair[0].intervalEnd && pair[1].intervalEnd && pair[0].keyEnd == [] && pair[1].keyEnd == []
            && pair[0].key[i] == iv.start / Size(n - 1 - i) % 256
            && pair[1].key[i] == iv.end / Size(n - 1 - i) % 256
  {
    hide Size, ToBytes;
    PairedSnoc([], iv, n);
    assert [] + [iv] == [iv] && Paired([], n) == [];
    ByteAt(iv.start, n, i);
    ByteAt(iv.end, n, i);
  }

  /** Which addresses are encoded, and how often: every listing of an address of the family but
      that of its last one. */
  lemma {:induction false} IpsKeptExact(ips: seq<Option<Addr>>, isV6: bool, v: nat)
    ensures multiset(IpsKept(ips, isV6))[v] ==
            if v < (if isV6 then 0xffff_ffff_ffff_ffff_ffff_ffff_ffff_ffff else 0xffff_ffff)
            then multiset(ips)[Some(Addr(isV6, v))] else 0
  {
    SpaceSizes();
    if ips != [] {
      IpsKeptExact(ips[1..], isV6, v);
      assert ips == [ips[0]] + ips[1..];
      assert multiset(IpsKept(ips, isV6)) == multiset(IpsKeptOne(ips[0], isV6)) + multiset(IpsKept(ips[1..], isV6));
    }
  }

  /** And in which order: that of the list. */
  lemma {:induction false} IpsKeptConcat(a: seq<Option<Addr>>, b: seq<Option<Addr>>, isV6: bool)
    ensures IpsKept(a + b, isV6) == IpsKept(a, isV6) + IpsKept(b, isV6)
  {
    hide IpKept;
    if a == [] {
      assert a + b == b;
    } else {
      IpsKeptConcat(a[1..], b, isV6);
      assert (a + b)[1..] == a[1..] + b && (a + b)[0] == a[0];
    }
  }

  /** So for every list of texts the decoder hands back every address of the family that is not
      its last one, as often as the list has it, and no other. */
  lemma IpsComeBack(ips: seq<Option<Addr>>, isV6: bool, v: nat)
    ensures var n := if isV6 then 16 else 4;
            var back := IpsOf(Spelled(Paired(IpIntervals(IpsKept(ips, isV6)), n), n, None));
            multiset(back)[v] ==
            if v < (if isV6 then 0xffff_ffff_ffff_ffff_ffff_ffff_ffff_ffff else 0xffff_ffff)
            then multiset(ips)[Some(Addr(isV6, v))] else 0
  {
    hide IpsOf, Spelled, Paired, IpIntervals, IpsKept;
    IpRoundTrip(ips, isV6);
    IpsKeptExact(ips, isV6, v);
  }

  /** The block of a prefix: the aligned block of its length that its address lies in. */
  lemma BlockOf(c: Cidr)
    ensures var total := if c.v6 then 128 else 32;
            && c.bits <= total && HostBits(c) == total - c.bits
            && Masked(c) % Pow2(total - c.bits) == 0
            && Masked(c) <= c.num < Masked(c) + Pow2(total - c.bits)
  {
    hide Pow2;
    var h := Pow2(HostBits(c));
    assert c.num == c.num / h * h + c.num % h;
    ModUnique(Masked(c), 0, c.num / h, h);
  }

  /** An address lies in one aligned block of a size. */
  lemma OneBlock(a: nat, b: nat, x: nat, h: nat)
    requires h > 0 && a % h == 0 && b % h == 0 && a <= x < a + h && b <= x < b + h
    ensures a == b
  {
    var i, j := a / h, b / h;
    assert a == i * h && b == j * h;
    if i < j {
      MulOrder(i + 1, j, h);
    } else if j < i {
      MulOrder(j + 1, i, h);
    }
  }

  /** What one prefix comes back as: its block, whose start may be given by any means, unless the
      block reaches the end of the address space. */
  lemma SurvivingOne(c: Cidr, isV6: bool, net: nat)
    requires var h := Pow2((if c.v6 then 128 else 32) - c.bits); net % h == 0 && net <= c.num < net + h
    ensures CidrsSurviving([Some(c)], isV6) ==
            var h := Pow2((if c.v6 then 128 else 32) - c.bits);
            if c.v6 == isV6
               && net + h < (if isV6 then 0x1_0000_0000_0000_0000_0000_0000_0000_0000 else 0x1_0000_0000)
            then [(net, c.bits)] else []
  {
    hide Pow2, Masked;
    BlockOf(c);
    OneBlock(net, Masked(c), c.num, Pow2(HostBits(c)));
    SpaceSizes();
    assert [Some(c)][1..] == [];
  }

  lemma SurvivingNone(isV6: bool)
    ensures CidrsSurviving([None], isV6) == []
  {
    assert CidrsSurviving([None][1..], isV6) == [];
  }

  lemma {:induction false} SurvivingConcat(a: seq<Option<Cidr>>, b: seq<Option<Cidr>>, isV6: bool)
    ensures CidrsSurviving(a + b, isV6) == CidrsSurviving(a, isV6) + CidrsSurviving(b, isV6)
  {
    hide EndsBeforeLast, Masked;
    if a == [] {
      assert a + b == b;
    } else {
      SurvivingConcat(a[1..], b, isV6);
      assert (a + b)[1..] == a[1..] + b && (a + b)[0] == a[0];
    }
  }

  /** The interval of a range: from its first port to the one after its last, 0 after 65535. */
  lemma PortIntervalIs(lo: nat, hi: nat)
    requires 1 <= lo <= hi <= 65535
    ensures PortIntervals([Ports(lo, hi)]) == [Interval(lo, if hi == 65535 then 0 else hi + 1)]
  {
  }
}
