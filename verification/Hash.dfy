/** The digest both sides key the tables by, and what can and cannot collide. */
module Hash {
  import opened Base
  import opened Rules
  import opened Table
  import opened Walk

  const OFFSET_BASIS: bv64 := 0xcbf2_9ce4_8422_2325
  const MAX_HASH_LEN := 64

  function Mix(hash: bv64, word: bv64): bv64
  {
    TimesPrime(hash ^ word)
  }

  /** Multiplication by the 64-bit FNV prime, wrapping. */
  function TimesPrime(x: bv64): bv64
  {
    x * 0x0000_0100_0000_01b3
  }

  function Fold(hash: bv64, bytes: Name): bv64
    decreases |bytes|
  {
    if bytes == [] then hash
    else Mix(Fold(hash, bytes[..|bytes| - 1]), Word(bytes[|bytes| - 1]))
  }

  function Word(b: Byte): bv64
  {
    b as bv64
  }

  function Hashed(s: Name): Name
  {
    if |s| <= MAX_HASH_LEN then s else s[..MAX_HASH_LEN]
  }

  /** Number of bytes hashed, as the word that is folded in last. */
  function CountWord(n: nat): bv64
    requires n <= MAX_HASH_LEN
  {
    n as bv64
  }

  function Digest(s: Name): bv64
  {
    Mix(Fold(OFFSET_BASIS, Hashed(s)), CountWord(|Hashed(s)|))
  }

  /** The userspace hash. */
  method Fnv1aHashU64(s: Name) returns (hash: bv64)
    ensures hash == Digest(s)
  {
    hide Mix, CountWord, Word;
    hash := OFFSET_BASIS;
    var hashed := 0;
    while hashed < |s| && hashed < MAX_HASH_LEN
      invariant 0 <= hashed <= |s| && hashed <= MAX_HASH_LEN
      invariant hash == Fold(OFFSET_BASIS, s[..hashed])
    {
      assert s[..hashed + 1][..hashed] == s[..hashed];
      hash := Mix(hash, Word(s[hashed]));
      hashed := hashed + 1;
    }
    assert s[..hashed] == Hashed(s);
    hash := Mix(hash, CountWord(hashed));
  }

  /** The bytes before the first NUL. */
  function UpToNul(name: Name): Name
  {
    if name == [] || name[0] == 0 then [] else [name[0]] + UpToNul(name[1..])
  }

  lemma {:induction false} UpToNulSplit(name: Name, n: nat)
    requires n <= |name| && 0 !in name[..n]
    ensures |UpToNul(name)| >= n && UpToNul(name)[..n] == name[..n]
    ensures n == |name| || name[n] == 0 ==> UpToNul(name) == name[..n]
  {
    if n > 0 {
      assert name[..n][0] == name[0] && name[..n][1..] == name[1..][..n - 1];
      UpToNulSplit(name[1..], n - 1);
    }
  }

  lemma UpToNulIs(name: Name, n: nat)
    requires n <= |name| && n <= MAX_HASH_LEN && 0 !in name[..n]
    requires n == MAX_HASH_LEN || n == |name| || name[n] == 0
    ensures name[..n] == Hashed(UpToNul(name))
    ensures 0 !in name ==> UpToNul(name) == name
  {
    UpToNulSplit(name, n);
    if 0 !in name {
      assert name[..|name|] == name;
      UpToNulSplit(name, |name|);
    }
  }

  /** The kernel hash: it also stops at a NUL. */
  method HashComponent(name: Name) returns (hash: bv64)
    ensures hash == Digest(UpToNul(name))
    ensures 0 !in name ==> hash == Digest(name)
  {
    hide Mix, CountWord, Word;
    hash := OFFSET_BASIS;
    var hashed := 0;
    for i := 0 to MAX_HASH_LEN
      invariant hashed == i <= |name|
      invariant hash == Fold(OFFSET_BASIS, name[..i])
      invariant 0 !in name[..i]
    {
      if i >= |name| {
        break;
      }
      if name[i] == 0 {
        break;
      }
      assert name[..i + 1][..i] == name[..i];
      hash := Mix(hash, Word(name[i]));
      hashed := hashed + 1;
    }
    UpToNulIs(name, hashed);
    hash := Mix(hash, CountWord(hashed));
  }

  /** Identifying a build: the same fold over the whole object, with no cap. */
  method Fnv1aDigest(bytes: Name) returns (hash: bv64)
    ensures hash == Fold(OFFSET_BASIS, bytes)
  {
    hide Mix;
    hash := OFFSET_BASIS;
    for i := 0 to |bytes|
      invariant hash == Fold(OFFSET_BASIS, bytes[..i])
    {
      assert bytes[..i + 1][..i] == bytes[..i];
      hash := Mix(hash, Word(bytes[i]));
    }
    assert bytes[..|bytes|] == bytes;
  }

  // ---- no collisions from a single byte ----

  /** Multiplication by the prime's inverse modulo 2^64, which exists because the prime is odd. */
  function UndoPrime(x: bv64): bv64
  {
    x * 0xce96_5057_aff6_957b
  }

  lemma InverseOfPrime(x: bv64)
    ensures UndoPrime(x * 0x0000_0100_0000_01b3) == x
  {
  }

  lemma PrimeUndone(x: bv64)
    ensures UndoPrime(TimesPrime(x)) == x
  {
    hide UndoPrime;
    InverseOfPrime(x);
  }

  lemma TimesPrimeInjective(x: bv64, y: bv64)
    requires TimesPrime(x) == TimesPrime(y)
    ensures x == y
  {
    hide TimesPrime, UndoPrime;
    PrimeUndone(x);
    PrimeUndone(y);
  }

  lemma XorCancels(x: bv64, y: bv64, word: bv64)
    requires x ^ word == y ^ word
    ensures x == y
  {
  }

  lemma MixInjective(x: bv64, y: bv64, word: bv64)
    requires Mix(x, word) == Mix(y, word)
    ensures x == y
  {
    hide TimesPrime;
    TimesPrimeInjective(x ^ word, y ^ word);
    XorCancels(x, y, word);
  }

  lemma BytesApart(hash: bv64, a: Byte, b: Byte)
    requires hash ^ Word(a) == hash ^ Word(b)
    ensures a == b
  {
  }

  lemma MixSeparates(hash: bv64, a: Byte, b: Byte)
    requires Mix(hash, Word(a)) == Mix(hash, Word(b))
    ensures a == b
  {
    hide TimesPrime, Word;
    TimesPrimeInjective(hash ^ Word(a), hash ^ Word(b));
    BytesApart(hash, a, b);
  }

  /** The two strings differ at index `i` and nowhere else. */
  predicate DifferOnlyAt(a: Name, b: Name, i: nat)
  {
    |a| == |b| && i < |a| && a[i] != b[i] && forall j :: 0 <= j < |a| && j != i ==> a[j] == b[j]
  }

  lemma {:induction false} FoldSeparates(hash: bv64, a: Name, b: Name, i: nat)
    requires DifferOnlyAt(a, b, i)
    ensures Fold(hash, a) != Fold(hash, b)
    decreases |a|
  {
    hide Mix, Word;
    var n := |a| - 1;
    if i == n {
      assert a[..n] == b[..n];
      if Fold(hash, a) == Fold(hash, b) { MixSeparates(Fold(hash, a[..n]), a[n], b[n]); }
    } else {
      FoldSeparates(hash, a[..n], b[..n], i);
      if Fold(hash, a) == Fold(hash, b) { MixInjective(Fold(hash, a[..n]), Fold(hash, b[..n]), Word(a[n])); }
    }
  }

  /** Names of equal length that differ in one byte among the first 64 have different digests. */
  lemma OneByteNeverCollides(a: Name, b: Name, i: nat)
    requires DifferOnlyAt(a, b, i) && i < 64
    ensures Digest(a) != Digest(b)
  {
    hide Mix, CountWord, Word;
    FoldSeparates(OFFSET_BASIS, Hashed(a), Hashed(b), i);
    if Digest(a) == Digest(b) {
      MixInjective(Fold(OFFSET_BASIS, Hashed(a)), Fold(OFFSET_BASIS, Hashed(b)), CountWord(|Hashed(a)|));
    }
  }

  /** Objects of equal length that differ in one byte have different build ids. */
  lemma BuildIdSeesEveryByte(a: Name, b: Name, i: nat)
    requires DifferOnlyAt(a, b, i)
    ensures Fold(OFFSET_BASIS, a) != Fold(OFFSET_BASIS, b)
  {
    FoldSeparates(OFFSET_BASIS, a, b, i);
  }

  // ---- what the cap on hashed bytes costs ----

  /** Beyond 64 bytes nothing counts, not even the length. */
  lemma LongNamesCollide(a: Name, b: Name)
    requires |a| >= 64 && |b| >= 64 && a[..64] == b[..64]
    ensures Digest(a) == Digest(b)
  {
    assert Hashed(a) == a[..MAX_HASH_LEN] && Hashed(b) == b[..MAX_HASH_LEN];
  }

  function Decimal(n: nat): Name
  {
    (if n < 10 then [] else Decimal(n / 10)) + [(48 + n % 10) as bv8]
  }

  function Joined(p: seq<Name>): Name
  {
    if p == [] then []
    else if |p| == 1 then p[0]
    else Joined(p[..|p| - 1]) + [SLASH] + p[|p| - 1]
  }

  const COLON: Byte := 58

  /** The text a prefix's state is the digest of: the role, a colon, and the joined components. */
  function StateText(role: nat, p: seq<Name>): Name
  {
    Decimal(role) + [COLON] + Joined(p)
  }

  /** The digests the program uses, as the table's two hashes. */
  function Fnv(): Hashing
  {
    Hashing(Digest, (role: nat, p: seq<Name>) => Digest(StateText(role, p)))
  }

  /**
   Where the premise of the compiler theorem fails for these digests: once a
   prefix's text fills 64 bytes, it shares its state with every prefix below it.
   */
  lemma DeepPrefixesShareAState(role: nat, rs: seq<PathRule>, p: seq<Name>, c: Name, path: seq<Name>)
    requires p != [] && |StateText(role, p)| >= 64
    requires Inner(rs, p + [c])
    ensures StateAfter(Fnv(), role, p) == StateAfter(Fnv(), role, p + [c])
    ensures !CollisionFree(Fnv(), role, rs, path)
  {
    hide Digest, Decimal, Deriv, NamesApart;
    var q := p + [c];
    assert q[..|q| - 1] == p;
    assert StateText(role, q) == StateText(role, p) + [SLASH] + c;
    LongNamesCollide(StateText(role, p), StateText(role, q));
    DerivAlive(After(rs, p), c);
    assert Inner(rs, p) && Inner(rs, q);
  }

  // ---- known answers ----

  lemma FoldNothing()
    ensures Fold(OFFSET_BASIS, []) == 0xcbf2_9ce4_8422_2325
  {
  }

  lemma FoldSnoc(init: Name, b: Byte)
    ensures Fold(OFFSET_BASIS, init + [b]) == Mix(Fold(OFFSET_BASIS, init), Word(b))
  {
    hide Mix, Word;
    assert (init + [b])[..|init|] == init;
  }

  /** The digest of the empty name, as the program's own tests pin it down. */
  lemma DigestOfNothing()
    ensures Digest([]) == 0xaf63_bd4c_8601_b7df
  {
    hide Fold;
    FoldNothing();
  }

  /** The digest of `etc`, likewise. */
  lemma DigestOfEtc()
    ensures Digest([101, 116, 99]) == 0xc441_4a60_7a45_4d4a
  {
    hide Fold;
    FoldNothing();
    var s: Name := [];
    FoldSnoc(s, 101);
    s := s + [101];
    assert Fold(OFFSET_BASIS, s) == 0xaf63_d84c_8601_e5c0;
    FoldSnoc(s, 116);
    s := s + [116];
    assert Fold(OFFSET_BASIS, s) == 0x088e_3e07_b539_50dc;
    FoldSnoc(s, 99);
    s := s + [99];
    assert Fold(OFFSET_BASIS, s) == 0xc304_2618_f064_348d;
    assert s == [101, 116, 99];
  }

  /** And of `.ssh`. */
  lemma DigestOfSsh()
    ensures Digest([46, 115, 115, 104]) == 0xd05a_cb17_0a18_12d3
  {
    hide Fold;
    FoldNothing();
    var s: Name := [];
    FoldSnoc(s, 46);
    s := s + [46];
    assert Fold(OFFSET_BASIS, s) == 0xaf63_a34c_8601_8bb1;
    FoldSnoc(s, 115);
    s := s + [115];
    assert Fold(OFFSET_BASIS, s) == 0x07da_3d07_b4a0_7aa6;
    FoldSnoc(s, 115);
    s := s + [115];
    assert Fold(OFFSET_BASIS, s) == 0xf850_8917_ecb0_b7ef;
    FoldSnoc(s, 104);
    s := s + [104];
    assert Fold(OFFSET_BASIS, s) == 0xa190_7aa7_3047_da65;
    assert s == [46, 115, 115, 104];
  }

  lemma DecimalTwelve()
    ensures Decimal(12) == [49, 50]
  {
    assert Decimal(1) == [49];
  }

  lemma JoinedPair(a: Name, b: Name)
    ensures Joined([a, b]) == a + [47] + b
  {
    assert [a, b][..1] == [a];
  }

  /** What the state of `/etc/ssh` in role 12 is the digest of: `12:etc/ssh`. */
  lemma KnownStateText()
    ensures StateText(12, [[101, 116, 99], [115, 115, 104]]) == [49, 50, 58, 101, 116, 99, 47, 115, 115, 104]
  {
    hide Decimal, Joined;
    DecimalTwelve();
    JoinedPair([101, 116, 99], [115, 115, 104]);
  }
}
