/** The seed bytes of the program's derived addresses. */
module Seeds {
  import opened Words

  type byte = x: int | 0 <= x < 0x100
  type Key32 = s: seq<byte> | |s| == 32 witness seq(32, _ => 0)

  /** One value per derived-address family, with the arguments of that family. */
  datatype Seed =
    | Config
    | PendingAdmin
    | Agent(authority: Key32)
    | Completion(agent: Key32, seqNo: u64)
    | Challenge(completion: Key32)
    | ChallengeVault(completion: Key32)
    | Capability(capabilityType: Key32, creator: Key32, id: u64)
    | CapabilityVault(capability: Key32)
    | CapabilityIndex(capabilityType: Key32)

  function Ascii(s: string): (b: seq<byte>)
    requires forall c | c in s :: c as int < 0x80
    ensures |b| == |s| && forall i | 0 <= i < |s| :: b[i] == s[i] as int
  {
    seq<byte>(|s|, i requires 0 <= i < |s| => assert s[i] in s; var b: byte := s[i] as int; b)
  }

  /** Little-endian bytes of `x`, least significant first. */
  function LittleEndian(x: nat, width: nat): (b: seq<byte>)
    ensures |b| == width
  {
    if width == 0 then [] else [x % 0x100] + LittleEndian(x / 0x100, width - 1)
  }

  function FromLittleEndian(b: seq<byte>): nat {
    if b == [] then 0 else b[0] + 0x100 * FromLittleEndian(b[1..])
  }

  function Pow256(n: nat): nat {
    if n == 0 then 1 else 0x100 * Pow256(n - 1)
  }

  lemma {:induction false} LittleEndianRoundTrip(x: nat, width: nat)
    requires x < Pow256(width)
    ensures FromLittleEndian(LittleEndian(x, width)) == x
    decreases width
  {
    if width > 0 {
      LittleEndianRoundTrip(x / 0x100, width - 1);
      assert LittleEndian(x, width)[1..] == LittleEndian(x / 0x100, width - 1);
    }
  }

  function U64Bytes(x: u64): (b: seq<byte>)
    ensures |b| == 8
  {
    LittleEndian(x, 8)
  }

  lemma U64BytesInjective(x: u64, y: u64)
    ensures U64Bytes(x) == U64Bytes(y) ==> x == y
  {
    assert Pow256(4) == 0x1_0000_0000;
    assert Pow256(8) == U64_MAX + 1;
    LittleEndianRoundTrip(x, 8);
    LittleEndianRoundTrip(y, 8);
  }

  /** The concatenated seed bytes that are hashed into the address. */
  function Encode(s: Seed): seq<byte> {
    match s
    case Config => Ascii("config")
    case PendingAdmin => Ascii("pending-admin")
    case Agent(authority) => Ascii("agent") + authority
    case Completion(agent, seqNo) => Ascii("completion") + agent + U64Bytes(seqNo)
    case Challenge(completion) => Ascii("challenge") + completion
    case ChallengeVault(completion) => Ascii("challenge_vault") + completion
    case Capability(capabilityType, creator, id) =>
      Ascii("capability") + capabilityType + creator + U64Bytes(id)
    case CapabilityVault(capability) => Ascii("capability_vault") + capability
    case CapabilityIndex(capabilityType) => Ascii("cap-index") + capabilityType
  }

  function EncodedLength(s: Seed): nat {
    match s
    case Config => 6
    case PendingAdmin => 13
    case Agent(_) => 37
    case Completion(_, _) => 50
    case Challenge(_) => 41
    case ChallengeVault(_) => 47
    case Capability(_, _, _) => 82
    case CapabilityVault(_) => 48
    case CapabilityIndex(_) => 41
  }

  /** Only `challenge` and `cap-index` encode to the same length, and their second bytes differ. */
  lemma FamiliesByLength(a: Seed, b: Seed)
    ensures |Encode(a)| == EncodedLength(a)
    ensures EncodedLength(a) == EncodedLength(b) ==>
              || (a.Config? && b.Config?) || (a.PendingAdmin? && b.PendingAdmin?)
              || (a.Agent? && b.Agent?) || (a.Completion? && b.Completion?)
              || (a.ChallengeVault? && b.ChallengeVault?) || (a.Capability? && b.Capability?)
              || (a.CapabilityVault? && b.CapabilityVault?)
              || ((a.Challenge? || a.CapabilityIndex?) && (b.Challenge? || b.CapabilityIndex?))
    ensures a.Challenge? && b.CapabilityIndex? ==> Encode(a)[1] != Encode(b)[1]
  {
  }

  lemma SuffixEqual(p: seq<byte>, a: seq<byte>, b: seq<byte>)
    requires p + a == p + b
    ensures a == b
  {
    assert a == (p + a)[|p|..] && b == (p + b)[|p|..];
  }

  /** Over all arguments, seed bytes determine the family and every argument. */
  lemma SeedsInjective(a: Seed, b: Seed)
    requires Encode(a) == Encode(b)
    ensures a == b
  {
    FamiliesByLength(a, b);
    FamiliesByLength(b, a);
    match (a, b)
    case (Agent(x), Agent(y)) => SuffixEqual(Ascii("agent"), x, y);
    case (Challenge(x), Challenge(y)) => SuffixEqual(Ascii("challenge"), x, y);
    case (ChallengeVault(x), ChallengeVault(y)) => SuffixEqual(Ascii("challenge_vault"), x, y);
    case (CapabilityVault(x), CapabilityVault(y)) => SuffixEqual(Ascii("capability_vault"), x, y);
    case (CapabilityIndex(x), CapabilityIndex(y)) => SuffixEqual(Ascii("cap-index"), x, y);
    case (Completion(x, n), Completion(y, m)) =>
      var e := Encode(a);
      assert x == e[10..42] && y == e[10..42] && U64Bytes(n) == e[42..] && U64Bytes(m) == e[42..];
      U64BytesInjective(n, m);
    case (Capability(t, x, n), Capability(u, y, m)) =>
      var e := Encode(a);
      assert t == e[10..42] && u == e[10..42] && x == e[42..74] && y == e[42..74];
      assert U64Bytes(n) == e[74..] && U64Bytes(m) == e[74..];
      U64BytesInjective(n, m);
    case _ =>
  }

  // ---------------------------------------------------------------------------
  // Accounts named by what they belong to

  /** The accounts of the ledger, named by their owners instead of by their addresses. */
  datatype Account =
    | Plain(seed: Seed)
    | ChallengeOf(agent: Key32, seqNo: u64)
    | ChallengeVaultOf(agent: Key32, seqNo: u64)
    | CapabilityVaultOf(capabilityType: Key32, creator: Key32, id: u64)

  /** Seeds whose arguments are keys of the outside world and not addresses of other records. */
  predicate Direct(s: Seed) {
    s.Config? || s.PendingAdmin? || s.Agent? || s.Completion? || s.Capability? || s.CapabilityIndex?
  }

  type Name = a: Account | a.Plain? ==> Direct(a.seed) witness Plain(Config)

  /** The record an account hangs on, if its seed holds the address of one. */
  function Parent(a: Name): Seed {
    match a
    case Plain(seed) => seed
    case ChallengeOf(agent, n) => Completion(agent, n)
    case ChallengeVaultOf(agent, n) => Completion(agent, n)
    case CapabilityVaultOf(t, creator, n) => Capability(t, creator, n)
  }

  function LastSeed(a: Name, find: seq<byte> -> Key32): Seed {
    match a
    case Plain(seed) => seed
    case ChallengeOf(_, _) => Challenge(find(Encode(Parent(a))))
    case ChallengeVaultOf(_, _) => ChallengeVault(find(Encode(Parent(a))))
    case CapabilityVaultOf(_, _, _) => CapabilityVault(find(Encode(Parent(a))))
  }

  function Address(a: Name, find: seq<byte> -> Key32): Key32 {
    find(Encode(LastSeed(a, find)))
  }

  /** Where the hash has no collision among the seeds involved, distinct names have distinct
      addresses, nested ones included. */
  lemma NamesSeparate(a: Name, b: Name, find: seq<byte> -> Key32)
    requires find(Encode(Parent(a))) == find(Encode(Parent(b))) ==> Encode(Parent(a)) == Encode(Parent(b))
    requires Address(a, find) == Address(b, find) ==> Encode(LastSeed(a, find)) == Encode(LastSeed(b, find))
    ensures Address(a, find) == Address(b, find) <==> a == b
  {
    if Address(a, find) == Address(b, find) {
      SeedsInjective(LastSeed(a, find), LastSeed(b, find));
      if !a.Plain? && !b.Plain? { SeedsInjective(Parent(a), Parent(b)); }
    }
  }
}
