/**
 Prefixes as sets of addresses: the containment test the reconcilers use, and why testing it
 both ways is the same as asking for a shared address.
 */
module CidrAlgebra {
  import opened Powers
  import opened IntervalCodec

  /** How many addresses a prefix has. */
  function Block(c: Cidr): (h: nat)
    ensures h > 0
  {
    Pow2(HostBits(c))
  }

  /** The addresses of a prefix: from the network address on, a block of them. */
  predicate Covers(c: Cidr, a: Addr) {
    AddrOk(a) && a.v6 == c.v6 && Masked(c) <= a.num < Masked(c) + Block(c)
  }

  /** The address itself, host bits and all. */
  function AddressOf(c: Cidr): Addr {
    Addr(c.v6, c.num)
  }

  function LastOf(c: Cidr): Addr {
    Addr(c.v6, Masked(c) + Block(c) - 1)
  }

  /** The test: same family, no longer than the inner prefix, and the inner address cut to the
      outer length is the outer network. */
  predicate ContainsOrEquals(outer: Cidr, inner: Cidr) {
    && outer.v6 == inner.v6
    && outer.bits <= inner.bits
    && inner.num / Block(outer) * Block(outer) == Masked(outer)
  }

  // ---- arithmetic of blocks ------------------------------------------------

  lemma SameQuotient(x: nat, y: nat, h: nat)
    requires h > 0
    ensures x / h == y / h <==> y / h * h <= x < y / h * h + h
  {
    var q, r := y / h, x / h;
    assert x == r * h + x % h;
    if r < q {
      MulOrder(r + 1, q, h);
    } else if q < r {
      MulOrder(q + 1, r, h);
    }
  }

  lemma SameMultiple(q: nat, r: nat, h: nat)
    requires h > 0 && q * h == r * h
    ensures q == r
  {
    ModUnique(q * h, 0, q, h);
    ModUnique(r * h, 0, r, h);
  }

  lemma BlocksNest(outer: Cidr, inner: Cidr) returns (k: nat)
    requires outer.v6 == inner.v6 && outer.bits <= inner.bits
    ensures k > 0 && Block(outer) == Block(inner) * k
    ensures outer.bits < inner.bits ==> k >= 2
  {
    var d := inner.bits - outer.bits;
    k := Pow2(d);
    Pow2Add(HostBits(inner), d);
    assert HostBits(inner) + d == HostBits(outer);
    if d > 0 {
      assert Pow2(d) == 2 * Pow2(d - 1);
    }
  }

  /** Covering is having the same network part. */
  lemma CoversIff(c: Cidr, a: Addr)
    ensures Covers(c, a) <==> AddrOk(a) && a.v6 == c.v6 && a.num / Block(c) == c.num / Block(c)
  {
    SameQuotient(a.num, c.num, Block(c));
  }

  lemma CoversEnds(c: Cidr)
    ensures Covers(c, AddressOf(c)) && Covers(c, LastOf(c))
    ensures Covers(c, Addr(c.v6, Masked(c)))
  {
    hide Pow2, Size;
    MaskedFits(c);
    CoversIff(c, AddressOf(c));
  }

  lemma ContainsIff(outer: Cidr, inner: Cidr)
    ensures ContainsOrEquals(outer, inner) <==>
            outer.v6 == inner.v6 && outer.bits <= inner.bits && inner.num / Block(outer) == outer.num / Block(outer)
  {
    hide Pow2;
    SameNetwork(inner.num / Block(outer), outer.num / Block(outer), Block(outer));
  }

  lemma SameNetwork(q: nat, r: nat, h: nat)
    requires h > 0
    ensures q * h == r * h <==> q == r
  {
    if q * h == r * h {
      SameMultiple(q, r, h);
    }
  }

  /** Addresses in one block of the finer split are in one block of the coarser. */
  lemma CoarserBlock(outer: Cidr, inner: Cidr, a: Addr)
    requires outer.v6 == inner.v6 && outer.bits <= inner.bits && Covers(inner, a)
    ensures a.num / Block(outer) == inner.num / Block(outer)
  {
    hide Block, Masked;
    var k := BlocksNest(outer, inner);
    CoversIff(inner, a);
    DivTwice(a.num, Block(inner), k);
    DivTwice(inner.num, Block(inner), k);
  }

  // ---- the two theorems ----------------------------------------------------

  /** The test is set inclusion. */
  lemma ContainsIsSubset(outer: Cidr, inner: Cidr)
    ensures ContainsOrEquals(outer, inner) <==> forall a :: Covers(inner, a) ==> Covers(outer, a)
  {
    hide Covers, ContainsOrEquals, Block, Masked;
    ContainsIff(outer, inner);
    if ContainsOrEquals(outer, inner) {
      forall a | Covers(inner, a) ensures Covers(outer, a) {
        CoarserBlock(outer, inner, a);
        CoversIff(inner, a);
        CoversIff(outer, a);
      }
    } else {
      NotSubset(outer, inner);
    }
  }

  lemma NotSubset(outer: Cidr, inner: Cidr)
    requires !ContainsOrEquals(outer, inner)
    ensures exists a :: Covers(inner, a) && !Covers(outer, a)
  {
    hide Covers, ContainsOrEquals, Block, Masked;
    ContainsIff(outer, inner);
    CoversEnds(inner);
    if outer.v6 != inner.v6 || outer.bits <= inner.bits {
      CoversIff(outer, AddressOf(inner));
      assert !Covers(outer, AddressOf(inner));
    } else {
      LongerPrefix(outer, inner);
    }
  }

  /** A longer prefix misses one end of a shorter one. */
  lemma LongerPrefix(outer: Cidr, inner: Cidr)
    requires outer.v6 == inner.v6 && outer.bits > inner.bits
    ensures !Covers(outer, Addr(inner.v6, Masked(inner))) || !Covers(outer, LastOf(inner))
  {
    hide Pow2, Masked;
    var k := BlocksNest(inner, outer);
    MulOrder(2, k, Block(outer));
  }

  ghost predicate Share(p: Cidr, q: Cidr) {
    exists a :: Covers(p, a) && Covers(q, a)
  }

  /** Prefixes are nested or disjoint: testing containment both ways finds every overlap, and
      only overlaps. */
  lemma TwoWayIsIntersection(p: Cidr, q: Cidr)
    ensures ContainsOrEquals(p, q) || ContainsOrEquals(q, p) <==> Share(p, q)
  {
    hide Covers, ContainsOrEquals, Block, Masked;
    ContainsShares(p, q);
    ContainsShares(q, p);
    if Share(p, q) {
      var a :| Covers(p, a) && Covers(q, a);
      CoversIff(p, a);
      CoversIff(q, a);
      if p.bits <= q.bits {
        CoarserBlock(p, q, a);
        ContainsIff(p, q);
      } else {
        CoarserBlock(q, p, a);
        ContainsIff(q, p);
      }
    }
  }

  lemma ContainsShares(p: Cidr, q: Cidr)
    ensures ContainsOrEquals(p, q) ==> Share(p, q)
  {
    if ContainsOrEquals(p, q) {
      ContainsIsSubset(p, q);
      CoversEnds(q);
      assert Covers(p, AddressOf(q)) && Covers(q, AddressOf(q));
    }
  }

  /** The canonical form covers the same addresses. */
  lemma MaskedCovers(c: Cidr, a: Addr)
    requires Masked(c) < Size(Width(c.v6))
    ensures Covers(Cidr(c.v6, Masked(c), c.bits), a) <==> Covers(c, a)
  {
    hide Pow2, Size;
    var h := Block(c);
    ModUnique(Masked(c), 0, c.num / h, h);
  }
}
