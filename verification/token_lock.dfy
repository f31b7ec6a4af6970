/** The cross-process token lock: a lock byte plus a 16-bit acquisition generation.

    `gen` counts every bump of the generation; the register in shared memory holds
    gen % 65536, and every comparison the code makes is of the 16-bit values. */
module TokenLock {

  const GENERATIONS: nat := 65536
  const RECOVERING_A: nat := 254
  const RECOVERING_B: nat := 255
  const SLOTS: nat := 251
  const TOKEN_RING: nat := 252
  const NO_SLOT: int := -1

  function Register(gen: nat): nat {
    gen % GENERATIONS
  }

  function LockToken(gen: nat): nat {
    1 + Register(gen) % 253
  }

  /** Ring position of the plain token: tokens 2..253 sit at 0..251, token 1 at 251. */
  function PlainRingIndex(gen: nat): nat {
    (LockToken(gen) + TOKEN_RING - 2) % TOKEN_RING
  }

  function SlotLockToken(gen: nat, slot: nat): nat {
    2 + (PlainRingIndex(gen) + 1 + slot) % TOKEN_RING
  }

  function SlotOfToken(value: nat, gen: nat): int {
    if value < 2 || value > 253 then NO_SLOT
    else
      var slot := (value - 2 + 2 * TOKEN_RING - PlainRingIndex(gen) - 1) % TOKEN_RING;
      if slot < SLOTS then slot else NO_SLOT
  }

  /** The token of a holder: `slot` is a liveness slot or NO_SLOT. */
  function TokenOf(gen: nat, slot: int): (t: nat)
    requires slot < SLOTS
    ensures 1 <= t <= 253
  {
    if slot < 0 then LockToken(gen) else SlotLockToken(gen, slot)
  }

  function RecoveryClaim(observed: nat): nat {
    if observed == RECOVERING_A then RECOVERING_B else RECOVERING_A
  }

  /** A slot token decodes to its slot and to no other, for every generation. */
  lemma SlotTokenRoundTrip(gen: nat, slot: nat)
    requires slot < SLOTS
    ensures 2 <= SlotLockToken(gen, slot) <= 253
    ensures SlotLockToken(gen, slot) != LockToken(gen)
    ensures SlotOfToken(SlotLockToken(gen, slot), gen) == slot
  {
    var p := PlainRingIndex(gen);
    if p + 1 + slot < TOKEN_RING {
      assert (p + 1 + slot) % TOKEN_RING == p + 1 + slot;
      RingMod(slot + 2 * TOKEN_RING, 2, slot);
    } else {
      RingMod(p + 1 + slot, 1, p + 1 + slot - TOKEN_RING);
      RingMod(slot + TOKEN_RING, 1, slot);
    }
  }

  lemma RingMod(x: nat, k: nat, r: nat)
    requires r < TOKEN_RING && x == k * TOKEN_RING + r
    ensures x % TOKEN_RING == r
  {}

  /** A lock value decodes to a slot only if that slot's holder stores it: plain
      tokens, a free byte and recovery claims never do. */
  lemma SlotOfTokenIsExact(value: nat, gen: nat)
    ensures SlotOfToken(value, gen) >= 0 ==>
            SlotOfToken(value, gen) < SLOTS && value == SlotLockToken(gen, SlotOfToken(value, gen))
    ensures value == LockToken(gen) || value < 2 || value > 253 ==> SlotOfToken(value, gen) == NO_SLOT
  {
    if 2 <= value <= 253 {
      var p, v := PlainRingIndex(gen), value - 2;
      if v > p {
        RingMod(v + 2 * TOKEN_RING - p - 1, 2, v - p - 1);
      } else {
        RingMod(v + 2 * TOKEN_RING - p - 1, 1, v + TOKEN_RING - p - 1);
        if v < p {
          var slot := v + TOKEN_RING - p - 1;
          RingMod(p + 1 + slot, 1, v);
        }
      }
    }
  }

  // ---- one acquisition attempt, one shared-memory access per step ------------------------

  type Pid = p: nat | p > 0 witness 1

  datatype Pc =
    | Idle
    | Sampled(slot: int, planned: nat)                             // generation read
    | Won(slot: int, planned: nat)                                 // byte CASed from 0
    | Reread(slot: int, planned: nat, after: nat)                  // generation read again
    | Claimed(slot: int, planned: nat, after: nat, claimed: nat)   // generation bumped
    | Lost                                                        // won the CAS, told it lost
    | Holding(value: nat, generation: nat)
    | ReleaseChecked(value: nat, generation: nat)
    | Blocked(observed: nat)                                      // CAS failed
    | Watching(observed: nat, holderGen: nat)
    | GenChecked(stuck: nat, stuckGen: nat)                       // recovery: generation still the stuck one
    | RecoveryClaimed                                             // recovery: byte claimed
    | RecoveryBumped                                              // recovery: generation retired

  datatype Shared = Shared(lock: nat, gen: nat)

  datatype Access = Sample(slot: int) | Cas | RereadGen | ClaimGen | FixUp

  predicate Enabled(pc: Pc, a: Access) {
    match a
    case Sample(slot) => pc.Idle? && slot < SLOTS
    case Cas => pc.Sampled? && pc.slot < SLOTS
    case RereadGen => pc.Won?
    case ClaimGen => pc.Reread?
    case FixUp => pc.Claimed? && pc.slot < SLOTS
  }

  /** One step of the acquisition attempt: the new shared words and program counter. */
  function Attempt(m: Shared, pc: Pc, a: Access): (r: (Shared, Pc))
    requires Enabled(pc, a)
  {
    match a
    case Sample(slot) => (m, Sampled(slot, m.gen + 1))
    case Cas =>
      if m.lock == 0 then (m.(lock := TokenOf(pc.planned, pc.slot)), Won(pc.slot, pc.planned))
      else (m, Blocked(m.lock))
    case RereadGen => (m, Reread(pc.slot, pc.planned, m.gen))
    case ClaimGen => (m.(gen := m.gen + 1), Claimed(pc.slot, pc.planned, pc.after, m.gen + 1))
    case FixUp =>
      var held, token := TokenOf(pc.planned, pc.slot), TokenOf(pc.claimed, pc.slot);
      if Register(pc.claimed) != Register(pc.after + 1) then (m, Lost)
      else if token == held then (m, Holding(held, pc.claimed))
      else if m.lock == held then (m.(lock := token), Holding(token, pc.claimed))
      else (m, Lost)
  }
}
