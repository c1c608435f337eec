/** Machine integers and the small vocabulary shared by every module. */
module Common {
  datatype Option<+T> = None | Some(value: T)

  const U64_MAX := 0xFFFF_FFFF_FFFF_FFFF
  const U64_MOD := 0x1_0000_0000_0000_0000

  const I64_MAX := 0x7FFF_FFFF_FFFF_FFFF

  const NS_PER_SECOND := 1_000_000_000

  /** Longest domain name, in bytes. */
  const DOMAIN_MAX_LEN := 253

  type u64 = x: int | 0 <= x <= U64_MAX
  type u32 = x: int | 0 <= x < 0x1_0000_0000
  type u16 = x: int | 0 <= x < 0x1_0000
  type byte = x: int | 0 <= x < 256

  function SaturatingAdd(a: u64, b: u64): u64 {
    if a + b <= U64_MAX then a + b else U64_MAX
  }

  function SaturatingSub(a: u64, b: u64): u64 {
    if a >= b then a - b else 0
  }

  function Min(a: int, b: int): int {
    if a <= b then a else b
  }

  function Max(a: int, b: int): int {
    if a >= b then a else b
  }

  /** `as i64` of a `u64`. */
  function AsI64(x: u64): int {
    if x <= I64_MAX then x else x - U64_MOD
  }

  lemma Distribute(k: int, x: int, y: int)
    ensures k * (x + y) == k * x + k * y
  {
  }

  lemma MulMonotone(k: nat, x: int, y: int)
    requires x <= y
    ensures k * x <= k * y
  {
  }

  function Pow2(n: nat): (p: nat)
    ensures p > 0
  {
    if n == 0 then 1 else 2 * Pow2(n - 1)
  }

  /** The bit of weight 2^i. */
  predicate HasBit(x: nat, i: nat) {
    if i == 0 then x % 2 == 1 else HasBit(x / 2, i - 1)
  }

  /** Bitwise or of the low `n` bits. */
  function Or(a: nat, b: nat, n: nat): (r: nat)
    ensures r < Pow2(n)
  {
    if n == 0 then 0 else (if a % 2 == 1 || b % 2 == 1 then 1 else 0) + 2 * Or(a / 2, b / 2, n - 1)
  }

  lemma {:induction false} OrHasBit(a: nat, b: nat, n: nat, i: nat)
    ensures HasBit(Or(a, b, n), i) <==> i < n && (HasBit(a, i) || HasBit(b, i))
    decreases n
  {
    if n == 0 {
      NoBits(i);
    } else {
      var r := Or(a, b, n);
      assert r / 2 == Or(a / 2, b / 2, n - 1);
      if i > 0 {
        OrHasBit(a / 2, b / 2, n - 1, i - 1);
      }
    }
  }

  lemma {:induction false} NoBits(i: nat)
    ensures !HasBit(0, i)
  {
    if i > 0 {
      NoBits(i - 1);
    }
  }

  // ------------------------------------------------------------ shared vocabulary

  datatype Direction = Inbound | Outbound
  datatype Action = Limit | Block
  datatype Evidence = Dns | TlsSni | HttpHost
  datatype Confidence = Direct | Inferred

  /** The rule that a match entry refers to. */
  datatype RuleRef = RuleRef(rule: u32, action: Action)

  /** Key of a rule state. */
  datatype BucketKey = BucketKey(rule: u32, direction: Direction)

  /** Key of one match entry. A CIDR key is its length and its leading bits. */
  datatype MatchEntry =
    | AppCgroup(direction: Direction, cgroupId: u64)
    | AppComm(direction: Direction, comm: seq<byte>)
    | EndpointExact(direction: Direction, addr: u32, portBe: u16)
    | EndpointCidr(direction: Direction, prefixLen: nat, prefix: nat)
  {
    predicate IsApp() { AppCgroup? || AppComm? }
  }
}
