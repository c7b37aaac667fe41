/**
 Block headers (`header-store.ts`): the canonical 80 bytes, the difficulty target and the
 proof-of-work test, and what two accepted headers with one hash must have in common.
 */
module BlockHeaders {
  import opened Hex
  import opened Lists
  import opened Numbers
  import opened BlockMerkle

  datatype Header = Header(
    height: int, hash: string, prevHash: string, merkleRoot: string,
    time: int, bits: int, nonce: int, version: int)

  /** `value >>> 0`, then four bytes, least significant first. */
  function U32(value: int): (bs: Bytes)
    ensures |bs| == 4
  {
    var v := value % TWO_32;
    [v % 0x100, v / 0x100 % 0x100, v / 0x1_0000 % 0x100, v / 0x100_0000]
  }

  function Serialise(hd: Header): Bytes {
    U32(hd.version) + LeBytes(hd.prevHash) + LeBytes(hd.merkleRoot)
    + U32(hd.time) + U32(hd.bits) + U32(hd.nonce)
  }

  /** Compact bits expanded to the full target. */
  function TargetFromBits(bits: int): int {
    var b := bits % TWO_32;
    var exponent, mantissa := b / 0x100_0000, b % 0x100_0000;
    if exponent <= 3 then mantissa / Pow256(3 - exponent)
    else mantissa * Pow256(exponent - 3)
  }

  /** The digest read as the number its big-endian text shows. */
  function Value(bs: Bytes): int {
    if bs == [] then 0 else bs[0] + 256 * Value(bs[1..])
  }

  predicate VerifyProofOfWork(h: Hash, hd: Header) {
    var digest := h(Serialise(hd));
    && |Serialise(hd)| == 80
    && Text(digest) == Lower(hd.hash)
    && TargetFromBits(hd.bits) > 0
    && Value(digest) <= TargetFromBits(hd.bits)
  }

  /** Both hashes inside the header are written as 64 lower-case digits. */
  predicate Canonical(hd: Header) { IsHashText(hd.prevHash) && IsHashText(hd.merkleRoot) }

  /** Two headers whose bytes differ and hash alike. */
  ghost predicate HeaderCollision(h: Hash, f: Header, g: Header) {
    Serialise(f) != Serialise(g) && h(Serialise(f)) == h(Serialise(g))
  }

  /** Hash texts in any letter case that read as the same bytes are one text. */
  lemma HashTextsWithOneReading(x: string, y: string)
    requires IsHashText(Lower(x)) && IsHashText(y) && LeBytes(Lower(x)) == LeBytes(y)
    ensures Lower(x) == y
  {
    HashTextIsDigest(Lower(x));
    HashTextIsDigest(y);
  }

  lemma RootInside(hd: Header)
    requires Canonical(hd)
    ensures |Serialise(hd)| == 80 && Serialise(hd)[36..68] == LeBytes(hd.merkleRoot)
  {
    var head := U32(hd.version) + LeBytes(hd.prevHash);
    var root := LeBytes(hd.merkleRoot);
    var tail := U32(hd.time) + U32(hd.bits) + U32(hd.nonce);
    assert Serialise(hd) == head + root + tail;
    LeBytesLength(hd.prevHash);
    LeBytesLength(hd.merkleRoot);
    assert |head| == 36 && |root| == 32;
    assert (head + root + tail)[36..68] == root;
  }

  /** A field is written least significant byte first, modulo 2^32. */
  lemma U32Reads(value: int)
    ensures AllBytes(U32(value)) && Value(U32(value)) == value % TWO_32
  {
    var v := value % TWO_32;
    FourDigits(v);
    ValueOfFour(U32(value));
  }

  lemma ValueOfFour(b: Bytes)
    requires |b| == 4
    ensures var p: int, q: int, r: int, t: int := b[0], b[1], b[2], b[3];
      Value(b) == p + 0x100 * q + 0x1_0000 * r + 0x100_0000 * t
  {
    assert b[1..][1..] == b[2..] && b[2..][1..] == b[3..] && b[3..][1..] == [];
    assert Value(b[3..]) == b[3];
    assert Value(b[2..]) == b[2] + 256 * Value(b[3..]);
    assert Value(b[1..]) == b[1] + 256 * Value(b[2..]);
  }

  lemma FourDigits(v: int)
    requires 0 <= v < TWO_32
    ensures v == v % 0x100 + 0x100 * (v / 0x100 % 0x100) + 0x1_0000 * (v / 0x1_0000 % 0x100)
                 + 0x100_0000 * (v / 0x100_0000)
    ensures v / 0x100_0000 < 0x100
  {
    assert v / 0x1_0000 == v / 0x100 / 0x100 && v / 0x100_0000 == v / 0x1_0000 / 0x100;
  }

  /** Where each field stands in the 80 bytes. */
  lemma HeaderLayout(hd: Header)
    requires Canonical(hd)
    ensures var b := Serialise(hd);
      && |b| == 80 && AllBytes(b)
      && Value(b[0..4]) == hd.version % TWO_32
      && b[4..36] == LeBytes(hd.prevHash) && b[36..68] == LeBytes(hd.merkleRoot)
      && Value(b[68..72]) == hd.time % TWO_32 && Value(b[72..76]) == hd.bits % TWO_32
      && Value(b[76..80]) == hd.nonce % TWO_32
  {
    HashTextIsDigest(hd.prevHash);
    HashTextIsDigest(hd.merkleRoot);
    U32Reads(hd.version);
    U32Reads(hd.time);
    U32Reads(hd.bits);
    U32Reads(hd.nonce);
    Parts(U32(hd.version), LeBytes(hd.prevHash), LeBytes(hd.merkleRoot), U32(hd.time), U32(hd.bits), U32(hd.nonce));
  }

  lemma Parts(a: Bytes, b: Bytes, c: Bytes, d: Bytes, e: Bytes, f: Bytes)
    requires |a| == |d| == |e| == |f| == 4 && |b| == |c| == 32
    requires AllBytes(a) && AllBytes(b) && AllBytes(c) && AllBytes(d) && AllBytes(e) && AllBytes(f)
    ensures var all := a + b + c + d + e + f;
      && |all| == 80 && AllBytes(all) && all[0..4] == a && all[4..36] == b && all[36..68] == c
      && all[68..72] == d && all[72..76] == e && all[76..80] == f
  {
  }

  /** The digest is read with its first byte as the least significant. */
  lemma {:induction false} ValueJoins(a: Bytes, b: Bytes)
    ensures Value(a + b) == Value(a) + Pow256(|a|) * Value(b)
  {
    if a == [] {
      assert a + b == b;
    } else {
      assert (a + b)[1..] == a[1..] + b;
      ValueJoins(a[1..], b);
      assert 256 * (Pow256(|a| - 1) * Value(b)) == Pow256(|a|) * Value(b);
    }
  }

  /** Compact bits: exponent in the top byte, counted in bytes from 3; each step up is a factor of 256. */
  lemma TargetScales(bits: int)
    requires 0 <= bits < TWO_32
    ensures bits / 0x100_0000 == 3 ==> TargetFromBits(bits) == bits % 0x100_0000
    ensures 3 <= bits / 0x100_0000 < 255 ==> TargetFromBits(bits + 0x100_0000) == 256 * TargetFromBits(bits)
    ensures bits / 0x100_0000 < 3 ==> TargetFromBits(bits) == TargetFromBits(bits + 0x100_0000) / 256
    ensures TargetFromBits(bits + TWO_32) == TargetFromBits(bits)
  {
    var e, m := bits / 0x100_0000, bits % 0x100_0000;
    TargetOfParts(bits, e, m);
    WrapsAround(bits);
    if e == 3 { TargetAtThree(m); }
    if e < 255 { TargetOfParts(bits + 0x100_0000, e + 1, m); }
    if 3 <= e < 255 { OneByteUp(m, e - 3); }
    if e < 3 { OneByteDown(m, 3 - e); }
  }

  function ScaledTarget(e: nat, m: nat): int {
    if e <= 3 then m / Pow256(3 - e) else m * Pow256(e - 3)
  }

  lemma TargetOfParts(bits: int, e: int, m: int)
    requires bits == e * 0x100_0000 + m && 0 <= e < 256 && 0 <= m < 0x100_0000
    ensures TargetFromBits(bits) == ScaledTarget(e, m)
  {
    assert bits % TWO_32 == bits;
    assert bits / 0x100_0000 == e && bits % 0x100_0000 == m;
  }

  lemma WrapsAround(bits: int)
    requires 0 <= bits < TWO_32
    ensures TargetFromBits(bits + TWO_32) == TargetFromBits(bits)
  {
    assert (bits + TWO_32) % TWO_32 == bits % TWO_32;
  }

  lemma TargetAtThree(m: nat)
    ensures ScaledTarget(3, m) == m
  {
    assert Pow256(0) == 1;
  }

  lemma OneByteUp(m: nat, k: nat)
    ensures ScaledTarget(k + 4, m) == 256 * ScaledTarget(k + 3, m)
  {
    if k == 0 { TargetAtThree(m); }
    assert Pow256(k + 1) == 256 * Pow256(k);
    assert m * (256 * Pow256(k)) == 256 * (m * Pow256(k));
    assert Pow256(0) == 1;
  }

  lemma OneByteDown(m: nat, k: nat)
    requires 0 < k <= 3 && m < 0x100_0000
    ensures ScaledTarget(3 - k, m) == ScaledTarget(4 - k, m) / 256
  {
    assert Pow256(0) == 1 && Pow256(1) == 256 && Pow256(2) == 0x1_0000 && Pow256(3) == 0x100_0000;
    if k == 1 { assert m / 1 == m; }
  }

  lemma TargetBound(bits: int)
    requires 0 <= bits < TWO_32 && bits / 0x100_0000 >= 3
    ensures 0 <= TargetFromBits(bits) < Pow256(bits / 0x100_0000)
  {
    var e, m := bits / 0x100_0000, bits % 0x100_0000;
    assert Pow256(3) == 256 * Pow256(2) && Pow256(2) == 256 * Pow256(1) && Pow256(1) == 256;
    PowersJoin(3, e - 3);
    Below(m, 0x100_0000, Pow256(e - 3));
    if e == 3 { assert Pow256(0) == 1; }
  }

  lemma {:induction false} PowersJoin(a: nat, b: nat)
    ensures Pow256(a + b) == Pow256(a) * Pow256(b)
  {
    if a > 0 {
      PowersJoin(a - 1, b);
      assert 256 * (Pow256(a - 1) * Pow256(b)) == Pow256(a) * Pow256(b);
    }
  }

  lemma Below(m: nat, n: nat, k: nat)
    requires m < n && k > 0
    ensures 0 <= m * k < n * k
  {
  }

  /** Accepted headers with one hash carry one merkle root, or their bytes collide. */
  lemma SameHashSameRoot(h: Hash, f: Header, g: Header)
    requires VerifyProofOfWork(h, f) && VerifyProofOfWork(h, g)
    requires Canonical(f) && Canonical(g) && Lower(f.hash) == Lower(g.hash)
    ensures f.merkleRoot == g.merkleRoot || HeaderCollision(h, f, g)
  {
    TextInjective(h(Serialise(f)), h(Serialise(g)));
    if Serialise(f) == Serialise(g) {
      RootInside(f);
      RootInside(g);
      HashTextIsDigest(f.merkleRoot);
      HashTextIsDigest(g.merkleRoot);
    }
  }

  lemma {:induction false} LeBytesOfJoin(a: string, b: string)
    requires |b| % 2 == 0
    ensures LeBytes(a + b) == LeBytes(b) + LeBytes(a)
    decreases |b|
  {
    if b == "" {
      assert a + b == a;
    } else {
      var front, last := b[..|b| - 2], ParsePair(b[|b| - 2], b[|b| - 1]);
      LeBytesOfJoin(a, front);
      assert (a + b)[..|a + b| - 2] == a + front;
      assert LeBytes(a + b) == [last] + (LeBytes(front) + LeBytes(a));
      assert LeBytes(b) == [last] + LeBytes(front);
      Regrouped([last], LeBytes(front), LeBytes(a));
    }
  }

  /** What the columns of the header table hold: `char(64)` for the hash and the two hashes inside. */
  predicate FitsColumns(hd: Header) { |hd.hash| <= 64 && |hd.prevHash| <= 64 && |hd.merkleRoot| <= 64 }

  lemma HashesInTheMiddle(hd: Header)
    ensures Serialise(hd) == U32(hd.version) + (LeBytes(hd.prevHash) + LeBytes(hd.merkleRoot))
                             + (U32(hd.time) + U32(hd.bits) + U32(hd.nonce))
  {
  }

  /** The length test and the columns together leave one shape: 64 characters each. */
  lemma StoredFieldsAre64(h: Hash, hd: Header)
    requires VerifyProofOfWork(h, hd) && FitsColumns(hd)
    ensures |hd.hash| == 64 && |hd.prevHash| == 64 && |hd.merkleRoot| == 64
  {
    TextRoundTrip(h(Serialise(hd)));
    LowerChars(hd.hash);
    HashesInTheMiddle(hd);
    LeBytesLength(hd.prevHash);
    LeBytesLength(hd.merkleRoot);
  }

  /** The header with one byte moved from its merkle root into its previous hash. */
  function Twin(f: Header): Header
    requires |f.merkleRoot| == 64
  {
    f.(prevHash := f.merkleRoot[62..] + f.prevHash, merkleRoot := f.merkleRoot[..62])
  }

  lemma TwinBytes(f: Header)
    requires Canonical(f)
    ensures Serialise(Twin(f)) == Serialise(f)
  {
    var front, last, g := f.merkleRoot[..62], f.merkleRoot[62..], Twin(f);
    assert f.merkleRoot == front + last;
    LeBytesOfJoin(front, last);
    LeBytesOfJoin(last, f.prevHash);
    assert LeBytes(g.prevHash) + LeBytes(g.merkleRoot) == LeBytes(f.prevHash) + LeBytes(f.merkleRoot);
    HashesInTheMiddle(f);
    HashesInTheMiddle(g);
  }

  /**
   The length test looks at the total of 80 bytes only, so the two hashes inside may share
   their 64 bytes unevenly: every accepted canonical header has a twin with the same bytes,
   accepted as well, whose merkle root text is different. Only the table's columns refuse it.
   */
  lemma UnevenTwin(h: Hash, f: Header)
    requires VerifyProofOfWork(h, f) && Canonical(f)
    ensures var g := Twin(f);
      g.hash == f.hash && VerifyProofOfWork(h, g) && g.merkleRoot != f.merkleRoot && !FitsColumns(g)
  {
    TwinBytes(f);
    assert |Twin(f).merkleRoot| == 62;
  }

  /** The header whose root is written with `+d` for `0d` at one pair: `parseInt` reads both alike. */
  function PlusTwin(f: Header, i: nat): Header
    requires i < |f.merkleRoot|
  {
    f.(merkleRoot := f.merkleRoot[i := '+'])
  }

  lemma PlusPair(d: char)
    requires IsLowerHexDigit(d)
    ensures ParsePair('+', d) == ParsePair('0', d)
  {
    assert Digit('0') == 0 && Digit('+') == -1 && Digit(d) >= 0;
  }

  lemma {:induction false} PlusReadsAsZero(s: string, i: nat)
    requires AllLowerHex(s) && |s| % 2 == 0 && i < |s| && i % 2 == 0 && s[i] == '0'
    ensures LeBytes(s[i := '+']) == LeBytes(s)
  {
    var t, n := s[i := '+'], |s| - 2;
    LeBytesStep(s, n);
    LeBytesStep(t, n);
    assert s[..n + 2] == s && t[..n + 2] == t;
    if i == n {
      PlusPair(s[n + 1]);
      assert t[..n] == s[..n];
    } else {
      PlusReadsAsZero(s[..n], i);
      assert t[..n] == s[..n][i := '+'];
    }
  }

  /** Such a twin has the bytes, the hash and the field lengths of the header, and another root text. */
  lemma PlusTwinPasses(h: Hash, f: Header, i: nat)
    requires VerifyProofOfWork(h, f) && Canonical(f) && i < 64 && i % 2 == 0 && f.merkleRoot[i] == '0'
    ensures var g := PlusTwin(f, i);
      && VerifyProofOfWork(h, g) && g.hash == f.hash && FitsColumns(g) && FitsColumns(f) && !Canonical(g)
      && Lower(g.merkleRoot) != Lower(f.merkleRoot)
  {
    PlusReadsAsZero(f.merkleRoot, i);
    TextRoundTrip(h(Serialise(f)));
    LowerChars(f.hash);
    LowerChars(f.merkleRoot);
    LowerChars(PlusTwin(f, i).merkleRoot);
    assert PlusTwin(f, i).merkleRoot[i] == '+';
    assert Lower(PlusTwin(f, i).merkleRoot)[i] != Lower(f.merkleRoot)[i];
  }
}
