/**
 * The activation and acquisition protocol of the process-wide runtime-services
 * instance, as a state machine over what a caller can observe: whether an
 * instance is published and, if so, whether its access lock is held.
 * The class `RuntimeServices.ServicesSingleton` is proved to follow it.
 */
module Lifecycle {
  import opened EfiTypes

  /** The `firmware-abi` value the trampoline is written for: "EFI64" and its terminator. */
  const Efi64Abi: seq<uint8> := [0x45, 0x46, 0x49, 0x36, 0x34, 0x00]

  /** Exact comparison of the `firmware-abi` bytes with "EFI64" including the terminating zero. */
  function AbiSupported(abi: seq<uint8>): (r: bool)
    ensures r <==> |abi| == 6 && abi[5] == 0 &&
                   forall i :: 0 <= i < 5 ==> abi[i] as int == "EFI64"[i] as int
  {
    abi == Efi64Abi
  }

  /**
   * What `activate` learns from the platform: whether the `/efi` device-tree
   * entry exists, the `firmware-abi` property if it is present as data, and
   * whether allocating the access lock succeeds.
   */
  datatype Probe = Probe(efiDevicePresent: bool, firmwareAbi: Option<seq<uint8>>, lockAllocates: bool)

  /** Whether a probe ends in a published instance. */
  function Accepts(p: Probe): (r: bool)
    ensures r <==> p.efiDevicePresent && p.firmwareAbi == Some(Efi64Abi) && p.lockAllocates
  {
    p.efiDevicePresent && p.firmwareAbi.Some? && AbiSupported(p.firmwareAbi.value) && p.lockAllocates
  }

  /** No instance, or one whose lock is or is not held. */
  datatype Published = Unavailable | Available(lockHeld: bool)

  datatype Op = Activate(probe: Probe) | Get(lock: bool) | Put

  /**
   * The effect of one operation. No operation withdraws an instance; only an
   * accepted activation publishes one; and a held lock is only ever the result
   * of `get(true)` or was already held.
   */
  function Step(s: Published, op: Op): (r: Published)
    ensures s.Available? ==> r.Available?
    ensures s.Unavailable? && r.Available? ==> op.Activate? && Accepts(op.probe)
    ensures r == Available(true) ==> op == Get(true) || s == Available(true)
  {
    match op
    case Activate(p) => if Accepts(p) then Available(false) else s
    case Get(lock) => if s.Available? && lock then Available(true) else s
    case Put => if s.Available? then Available(false) else s
  }

  /** The effect of a sequence of operations, first to last. */
  function Run(s: Published, ops: seq<Op>): (r: Published)
    decreases |ops|
  {
    if ops == [] then s else Run(Step(s, ops[0]), ops[1..])
  }

  /**
   * An accepted activation always ends with a published instance whose lock is
   * free, even when one was already published, and even when its lock was held:
   * the new instance and its fresh lock replace the old ones.
   */
  lemma ActivateReplaces(s: Published, p: Probe)
    requires Accepts(p)
    ensures Step(s, Activate(p)) == Available(false)
  {
  }

  /** Running two sequences one after the other is running their concatenation. */
  lemma {:induction false} RunAppend(s: Published, a: seq<Op>, b: seq<Op>)
    ensures Run(s, a + b) == Run(Run(s, a), b)
    decreases |a|
  {
    if a != [] {
      assert (a + b)[1..] == a[1..] + b;
      RunAppend(Step(s, a[0]), a[1..], b);
    } else {
      assert a + b == b;
    }
  }

  /** Once published, an instance is never withdrawn, whatever runs afterwards. */
  lemma {:induction false} PublishedStaysPublished(s: Published, ops: seq<Op>)
    requires s.Available?
    ensures Run(s, ops).Available?
    decreases |ops|
  {
    if ops != [] {
      PublishedStaysPublished(Step(s, ops[0]), ops[1..]);
    }
  }

  predicate HasAcceptedProbe(ops: seq<Op>) {
    exists i :: 0 <= i < |ops| && ops[i].Activate? && Accepts(ops[i].probe)
  }

  /**
   * Starting with no instance, one is published after a sequence of operations
   * exactly when some activation in it saw an EFI64 firmware and got its lock.
   */
  lemma {:induction false} PublishedIffAccepted(ops: seq<Op>)
    ensures Run(Unavailable, ops).Available? <==> HasAcceptedProbe(ops)
  {
    if HasAcceptedProbe(ops) {
      var i :| 0 <= i < |ops| && ops[i].Activate? && Accepts(ops[i].probe);
      assert ops == ops[..i] + [ops[i]] + ops[i + 1..];
      RunAppend(Unavailable, ops[..i] + [ops[i]], ops[i + 1..]);
      RunAppend(Unavailable, ops[..i], [ops[i]]);
      PublishedStaysPublished(Run(Unavailable, ops[..i] + [ops[i]]), ops[i + 1..]);
    } else {
      NeverPublished(ops);
    }
  }

  /** Without an accepted probe the state stays `Unavailable`. */
  lemma {:induction false} NeverPublished(ops: seq<Op>)
    requires !HasAcceptedProbe(ops)
    ensures Run(Unavailable, ops) == Unavailable
  {
    if ops != [] {
      assert !HasAcceptedProbe(ops[1..]) by {
        forall i | 0 <= i < |ops[1..]|
          ensures !(ops[1..][i].Activate? && Accepts(ops[1..][i].probe))
        {
          assert ops[1..][i] == ops[i + 1];
        }
      }
      assert !(ops[0].Activate? && Accepts(ops[0].probe));
      NeverPublished(ops[1..]);
    }
  }

  /** `get(false)` never changes anything, however often it is called. */
  lemma {:induction false} UnlockedGetsChangeNothing(s: Published, ops: seq<Op>)
    requires forall i :: 0 <= i < |ops| ==> ops[i] == Get(false)
    ensures Run(s, ops) == s
  {
    if ops != [] {
      UnlockedGetsChangeNothing(s, ops[1..]);
    }
  }

  /** A locked `get` followed by `put` leaves a published instance unlocked. */
  lemma {:induction false} GetPutReleases(s: Published, ops: seq<Op>)
    requires s.Available?
    requires |ops| % 2 == 0
    requires forall i :: 0 <= i < |ops| ==> ops[i] == if i % 2 == 0 then Get(true) else Put
    ensures Run(s, ops) == if ops == [] then s else Available(false)
    decreases |ops|
  {
    if ops != [] {
      assert ops[0] == Get(true) && ops[1] == Put;
      var rest := ops[2..];
      assert forall i :: 0 <= i < |rest| ==> rest[i] == ops[i + 2];
      GetPutReleases(Available(false), rest);
      assert Run(s, ops) == Run(Step(Step(s, Get(true)), Put), rest) by {
        assert ops[1..][0] == Put && ops[1..][1..] == rest;
      }
    }
  }
}
