/** Which addresses must never be banned: the reserved ones, the private ones unless that is switched off,
    those of this host and of its server, and the allowlist. */
module Guard {
  import opened Options
  import opened Tracker

  datatype Prefix = Prefix(addr: Addr, len: nat)

  function Width(a: Addr): nat {
    if a.V4? then 32 else 128
  }

  /** Prefix.Contains: same family and the same leading bits. */
  predicate Contains(p: Prefix, a: Addr) {
    && p.addr.V4? == a.V4? && p.len <= Width(a)
    && (LeadingBits(p.addr, p.len) == LeadingBits(a, p.len))
  }

  function LeadingBits(a: Addr, len: nat): nat
    requires len <= Width(a)
  {
    ShiftRight(a.bits, Width(a) - len)
  }

  function ShiftRight(x: nat, k: nat): nat {
    if k == 0 then x else ShiftRight(x / 2, k - 1)
  }

  datatype Reserved = Reserved(prefix: Prefix, reason: string)

  const ALWAYS_PROTECTED: seq<Reserved> := [
    Reserved(Prefix(V4(0x0000_0000), 8), "unspecified"),
    Reserved(Prefix(V4(0x7F00_0000), 8), "loopback"),
    Reserved(Prefix(V4(0xA9FE_0000), 16), "link-local"),
    Reserved(Prefix(V4(0xE000_0000), 4), "multicast"),
    Reserved(Prefix(V4(0xFFFF_FFFF), 32), "broadcast"),
    Reserved(Prefix(V6(0), 128), "unspecified"),
    Reserved(Prefix(V6(1), 128), "loopback"),
    Reserved(Prefix(V6(0xFE80_0000_0000_0000_0000_0000_0000_0000), 10), "link-local"),
    Reserved(Prefix(V6(0xFF00_0000_0000_0000_0000_0000_0000_0000), 8), "multicast")
  ]

  const PRIVATE_RANGES: seq<Prefix> := [
    Prefix(V4(0x0A00_0000), 8),
    Prefix(V4(0xAC10_0000), 12),
    Prefix(V4(0xC0A8_0000), 16),
    Prefix(V4(0x6440_0000), 10),
    Prefix(V6(0xFC00_0000_0000_0000_0000_0000_0000_0000), 7)
  ]

  predicate IsReserved(a: Addr) {
    exists i :: 0 <= i < |ALWAYS_PROTECTED| && Contains(ALWAYS_PROTECTED[i].prefix, a)
  }

  predicate IsPrivate(a: Addr) {
    exists i :: 0 <= i < |PRIVATE_RANGES| && Contains(PRIVATE_RANGES[i], a)
  }

  predicate IsRoutable(a: Addr) {
    !IsReserved(a) && !IsPrivate(a)
  }

  datatype Rules = Rules(allowlist: seq<Prefix>, local: set<Addr>, banPrivate: bool)

  predicate IsProtected(g: Rules, a: Addr) {
    || IsReserved(a)
    || (!g.banPrivate && IsPrivate(a))
    || a in g.local
    || exists i :: 0 <= i < |g.allowlist| && Contains(g.allowlist[i], a)
  }

  /** Protected: the searches in order, with the reason of the first hit. */
  method Protected(g: Rules, a: Addr) returns (reason: Option<string>)
    ensures reason.Some? <==> IsProtected(g, a)
    ensures IsReserved(a) ==>
      exists i :: 0 <= i < |ALWAYS_PROTECTED| && Contains(ALWAYS_PROTECTED[i].prefix, a) && reason == Some(ALWAYS_PROTECTED[i].reason)
          && forall j :: 0 <= j < i ==> !Contains(ALWAYS_PROTECTED[j].prefix, a)
    ensures !IsReserved(a) && !g.banPrivate && IsPrivate(a) ==> reason == Some("private")
    ensures !IsReserved(a) && (g.banPrivate || !IsPrivate(a)) && a in g.local ==> reason == Some("local address")
    ensures !IsReserved(a) && (g.banPrivate || !IsPrivate(a)) && a !in g.local && IsProtected(g, a) ==> reason == Some("allowlisted")
  {
    for i := 0 to |ALWAYS_PROTECTED|
      invariant forall j :: 0 <= j < i ==> !Contains(ALWAYS_PROTECTED[j].prefix, a)
    {
      if Contains(ALWAYS_PROTECTED[i].prefix, a) { return Some(ALWAYS_PROTECTED[i].reason); }
    }
    if !g.banPrivate {
      var private_ := Private(a);
      if private_ { return Some("private"); }
    }
    if a in g.local { return Some("local address"); }
    for i := 0 to |g.allowlist|
      invariant forall j :: 0 <= j < i ==> !Contains(g.allowlist[j], a)
    {
      if Contains(g.allowlist[i], a) { return Some("allowlisted"); }
    }
    return None;
  }

  method Private(a: Addr) returns (hit: bool)
    ensures hit <==> IsPrivate(a)
  {
    for i := 0 to |PRIVATE_RANGES|
      invariant forall j :: 0 <= j < i ==> !Contains(PRIVATE_RANGES[j], a)
    {
      if Contains(PRIVATE_RANGES[i], a) { return true; }
    }
    return false;
  }

  method Routable(a: Addr) returns (ok: bool)
    ensures ok <==> IsRoutable(a)
  {
    for i := 0 to |ALWAYS_PROTECTED|
      invariant forall j :: 0 <= j < i ==> !Contains(ALWAYS_PROTECTED[j].prefix, a)
    {
      if Contains(ALWAYS_PROTECTED[i].prefix, a) { return false; }
    }
    var private_ := Private(a);
    return !private_;
  }

  // ----- the ranges in numbers -----

  lemma DivideTwice(x: nat, m: nat)
    requires m > 0
    ensures x / 2 / m == x / (2 * m)
  {
    var d, e := x / 2 / m, x / 2 % m;
    assert x / 2 == d * m + e;
    assert x == d * (2 * m) + (2 * e + x % 2);
    DivisionIsUnique(x, 2 * m, d, 2 * e + x % 2);
  }

  lemma DivisionIsUnique(x: nat, m: nat, d: nat, e: nat)
    requires m > 0 && x == d * m + e && e < m
    ensures x / m == d
  {
    var q, r := x / m, x % m;
    assert q * m + r == d * m + e;
    if q < d { NextMultiple(q, d, m); } else if q > d { NextMultiple(d, q, m); }
  }

  lemma NextMultiple(q: nat, d: nat, m: nat)
    requires q < d
    ensures q * m + m <= d * m
  {
    assert d * m == q * m + m + (d - q - 1) * m;
    assert (d - q - 1) * m >= 0;
  }

  lemma {:induction false} ShiftDivides(x: nat, k: nat)
    ensures Pow2(k) > 0 && ShiftRight(x, k) == x / Pow2(k)
  {
    if k > 0 {
      ShiftDivides(x / 2, k - 1);
      DivideTwice(x, Pow2(k - 1));
    }
  }

  lemma ContainsDivides(p: Prefix, a: Addr, block: nat)
    requires p.len <= Width(a) && block == Pow2(Width(a) - p.len)
    ensures block > 0
    ensures Contains(p, a) <==> p.addr.V4? == a.V4? && p.addr.bits / block == a.bits / block
  {
    hide Pow2, ShiftRight;
    ShiftDivides(p.addr.bits, Width(a) - p.len);
    ShiftDivides(a.bits, Width(a) - p.len);
  }

  /** A prefix contains the addresses of its own family in its block of 2^(width - length). */
  lemma ContainsExactly(p: Prefix, a: Addr, block: nat)
    requires p.len <= Width(a) && block == Pow2(Width(a) - p.len)
    ensures block > 0
    ensures Contains(p, a) <==> p.addr.V4? == a.V4? && p.addr.bits - p.addr.bits % block <= a.bits < p.addr.bits - p.addr.bits % block + block
  {
    hide Contains, Pow2;
    ContainsDivides(p, a, block);
    var d, e := p.addr.bits / block, p.addr.bits % block;
    SameBlock(d, a.bits, block);
    assert d * block == p.addr.bits - e;
  }

  lemma SameBlock(d: nat, x: nat, m: nat)
    requires m > 0
    ensures x / m == d <==> d * m <= x < d * m + m
  {
    if d * m <= x < d * m + m { DivisionIsUnique(x, m, d, x - d * m); }
  }

  function Quad(a: nat, b: nat, c: nat, d: nat): Addr {
    V4(a * 0x100_0000 + b * 0x1_0000 + c * 0x100 + d)
  }

  /** An IPv6 address by its first group of 16 bits and the rest. */
  function Group(h: nat, rest: nat): Addr {
    V6(h * 0x1_0000_0000_0000_0000_0000_0000_0000 + rest)
  }

  lemma {:induction false} Pow2Adds(j: nat, k: nat)
    ensures Pow2(j + k) == Pow2(j) * Pow2(k)
  {
    if j > 0 { Pow2Adds(j - 1, k); }
  }

  lemma Powers()
    ensures Pow2(0) == 1 && Pow2(16) == 0x1_0000 && Pow2(20) == 0x10_0000 && Pow2(22) == 0x40_0000
    ensures Pow2(24) == 0x100_0000 && Pow2(28) == 0x1000_0000
    ensures Pow2(118) == 0x40_0000_0000_0000_0000_0000_0000_0000
    ensures Pow2(120) == 0x100_0000_0000_0000_0000_0000_0000_0000
    ensures Pow2(121) == 0x200_0000_0000_0000_0000_0000_0000_0000
  {
    assert Pow2(8) == 0x100;
    Pow2Adds(8, 8);
    Pow2Adds(4, 16);
    Pow2Adds(2, 20);
    Pow2Adds(4, 20);
    Pow2Adds(4, 24);
    Pow2Adds(16, 16);
    Pow2Adds(32, 32);
    Pow2Adds(64, 32);
    Pow2Adds(96, 22);
    Pow2Adds(96, 24);
    Pow2Adds(1, 120);
  }

  lemma Searches(a: Addr)
    ensures IsReserved(a) <==>
      var r := ALWAYS_PROTECTED;
      || Contains(r[0].prefix, a) || Contains(r[1].prefix, a) || Contains(r[2].prefix, a) || Contains(r[3].prefix, a)
      || Contains(r[4].prefix, a) || Contains(r[5].prefix, a) || Contains(r[6].prefix, a) || Contains(r[7].prefix, a)
      || Contains(r[8].prefix, a)
    ensures IsPrivate(a) <==>
      var r := PRIVATE_RANGES;
      Contains(r[0], a) || Contains(r[1], a) || Contains(r[2], a) || Contains(r[3], a) || Contains(r[4], a)
  {
    hide Contains;
    assert |ALWAYS_PROTECTED| == 9 && |PRIVATE_RANGES| == 5;
  }

  lemma OtherFamily(p: Prefix, a: Addr)
    requires p.addr.V4? != a.V4?
    ensures !Contains(p, a)
  {}

  /** The reserved and the private ranges of IPv4, and nothing else, in dotted notation. */
  lemma RangesOfV4(a: nat, b: nat, c: nat, d: nat)
    requires a < 256 && b < 256 && c < 256 && d < 256
    ensures IsReserved(Quad(a, b, c, d)) <==>
      a == 0 || a == 127 || (a == 169 && b == 254) || 224 <= a < 240 || (a == 255 && b == 255 && c == 255 && d == 255)
    ensures IsPrivate(Quad(a, b, c, d)) <==>
      a == 10 || (a == 172 && 16 <= b < 32) || (a == 192 && b == 168) || (a == 100 && 64 <= b < 128)
  {
    var x, r, p := Quad(a, b, c, d), ALWAYS_PROTECTED, PRIVATE_RANGES;
    Searches(x);
    Powers();
    hide Contains, Pow2, IsReserved, IsPrivate;
    ContainsExactly(r[0].prefix, x, 0x100_0000);
    ContainsExactly(r[1].prefix, x, 0x100_0000);
    ContainsExactly(r[2].prefix, x, 0x1_0000);
    ContainsExactly(r[3].prefix, x, 0x1000_0000);
    ContainsExactly(r[4].prefix, x, 1);
    OtherFamily(r[5].prefix, x);
    OtherFamily(r[6].prefix, x);
    OtherFamily(r[7].prefix, x);
    OtherFamily(r[8].prefix, x);
    ContainsExactly(p[0], x, 0x100_0000);
    ContainsExactly(p[1], x, 0x10_0000);
    ContainsExactly(p[2], x, 0x1_0000);
    ContainsExactly(p[3], x, 0x40_0000);
    OtherFamily(p[4], x);
  }

  /** Those of IPv6, by the first group of the address. */
  lemma RangesOfV6(h: nat, rest: nat)
    requires h < 0x1_0000 && rest < 0x1_0000_0000_0000_0000_0000_0000_0000
    ensures IsReserved(Group(h, rest)) <==> (h == 0 && rest <= 1) || 0xFE80 <= h < 0xFEC0 || 0xFF00 <= h
    ensures IsPrivate(Group(h, rest)) <==> 0xFC00 <= h < 0xFE00
  {
    var x, r, p := Group(h, rest), ALWAYS_PROTECTED, PRIVATE_RANGES;
    Searches(x);
    Powers();
    hide Contains, Pow2, IsReserved, IsPrivate;
    OtherFamily(r[0].prefix, x);
    OtherFamily(r[1].prefix, x);
    OtherFamily(r[2].prefix, x);
    OtherFamily(r[3].prefix, x);
    OtherFamily(r[4].prefix, x);
    ContainsExactly(r[5].prefix, x, 1);
    ContainsExactly(r[6].prefix, x, 1);
    ContainsExactly(r[7].prefix, x, 0x40_0000_0000_0000_0000_0000_0000_0000);
    ContainsExactly(r[8].prefix, x, 0x100_0000_0000_0000_0000_0000_0000_0000);
    OtherFamily(p[0], x);
    OtherFamily(p[1], x);
    OtherFamily(p[2], x);
    OtherFamily(p[3], x);
    ContainsExactly(p[4], x, 0x200_0000_0000_0000_0000_0000_0000_0000);
  }
}
