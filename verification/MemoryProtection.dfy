/**
 * Installing and locking the SRAM permissions (src/platform/memory_protection.rs) against registers that may read
 * back anything. A tape answers every access; `Configure` is the trace of accesses and the result it leads to.
 *
 * A register is its 32 bits, least significant first; every mask of the program is a range of bits.
 */
module MemoryProtection {
  import opened Words
  import opened Bits

  const MIN_IRAM_SPLIT := 0x4002_8000
  const MAX_IRAM_SPLIT := 0x4005_0000
  const SRAM_ALIAS_OFFSET := 0x7_0000

  datatype Error = Layout | LockedPolicy | Readback

  /** Some bits of a register and what they should hold: a check, or an update. */
  datatype Field = Field(offset: nat, lo: nat, hi: nat, value: Word)

  datatype Policy = Policy(iramEnd: u32, dataStart: u32)

  /** The word whose bits are the members of a set. */
  function Ones(bits: set<int>): (w: Word)
    ensures forall i :: 0 <= i < 32 ==> w[i] == (i in bits)
  {
    seq(32, i => i in bits)
  }

  /** `bits`, then `split` from bit `at` on. */
  function WithSplit(bits: set<int>, at: nat, split: Bitstring): (w: Word)
    requires at + |split| <= 32
  {
    seq(32, i requires 0 <= i < 32 && at + |split| <= 32 =>
      if at <= i < at + |split| then split[i - at] else i in bits)
  }

  /** The seventeen bits of a word address that a split field holds. */
  function SplitBits17(address: u32): (b: Bitstring)
    ensures |b| == 17
  {
    ToBits(address / 4, 17)
  }

  predicate Legal(iramEnd: u32, dataStart: u32) {
    MIN_IRAM_SPLIT <= iramEnd < MAX_IRAM_SPLIT && iramEnd % 4 == 0 && iramEnd - SRAM_ALIAS_OFFSET == dataStart
  }

  function NewPolicy(iramEnd: u32, dataStart: u32): Result<Policy, Error> {
    if Legal(iramEnd, dataStart) then Ok(Policy(iramEnd, dataStart)) else Err(Layout)
  }

  function Permissions(p: Policy): (f: seq<Field>)
    ensures |f| == 8
  {
    [Field(0x14, 0, 12, Ones({0, 1, 3, 4, 6, 7, 9, 10})),
     Field(0x18, 0, 23, WithSplit({17, 18}, 0, SplitBits17(p.iramEnd))),
     Field(0x1c, 0, 17, Ones({})),
     Field(0x2c, 0, 29, WithSplit({0, 2, 4, 6, 25, 27, 28}, 8, SplitBits17(p.dataStart))),
     Field(0x30, 0, 15, Ones({11, 12, 13, 14})),
     Field(0x40, 1, 16, Ones({})),
     Field(0x60, 0, 17, Ones({12, 13, 15, 16})),
     Field(0x64, 0, 17, Ones({}))]
  }

  /** Clear each monitor's latched fault and disable it. */
  function Clears(): seq<Field> {
    [Field(0x20, 0, 2, Ones({0})), Field(0x20, 0, 2, Ones({})), Field(0x34, 0, 2, Ones({0})), Field(0x34, 0, 2, Ones({})),
     Field(0x54, 0, 2, Ones({0})), Field(0x54, 0, 2, Ones({})), Field(0x68, 0, 2, Ones({0})), Field(0x68, 0, 2, Ones({}))]
  }

  function Monitors(hi: nat): (f: seq<Field>)
    ensures |f| == 4
  {
    [Field(0x20, 0, hi, Ones({1})), Field(0x34, 0, hi, Ones({1})), Field(0x54, 0, hi, Ones({1})), Field(0x68, 0, hi, Ones({1}))]
  }

  function Locks(value: Word): (f: seq<Field>)
    ensures |f| == 4
  {
    [Field(0x10, 0, 1, value), Field(0x28, 0, 1, value), Field(0x3c, 0, 1, value), Field(0x5c, 0, 1, value)]
  }

  /** What the policy check reads: every permission, then every monitor enabled with no fault latched. */
  function Checks(p: Policy): (f: seq<Field>)
    ensures |f| == 12
  {
    Permissions(p) + Monitors(3)
  }

  /** Everything written before the locks, in order. */
  function Updates(p: Policy): seq<Field> {
    Clears() + Permissions(p) + Monitors(2)
  }

  // ---- Accesses ----

  datatype Access = Read(offset: nat, value: Word) | Write(offset: nat, value: Word)

  type Tape = nat -> Word

  /** `value & mask == expected` */
  predicate Matches(value: Word, f: Field) {
    forall i :: 0 <= i < 32 ==> (f.lo <= i < f.hi && value[i]) == f.value[i]
  }

  /** `(previous & !mask) | (value & mask)` */
  function Merge(previous: Word, f: Field): (w: Word)
    ensures forall i :: 0 <= i < 32 ==> w[i] == if f.lo <= i < f.hi then f.value[i] else previous[i]
  {
    seq(32, i requires 0 <= i < 32 => if f.lo <= i < f.hi then f.value[i] else previous[i])
  }

  /** Reads each register in turn and stops at the first that does not match. */
  function ReadAll(checks: seq<Field>, log: seq<Access>, t: Tape): (seq<Access>, bool)
    decreases |checks|
  {
    if checks == [] then (log, true)
    else
      var v := t(|log|);
      var next := log + [Read(checks[0].offset, v)];
      if Matches(v, checks[0]) then ReadAll(checks[1..], next, t) else (next, false)
  }

  /** Reads each register and writes it back with its field replaced. */
  function Replace(fields: seq<Field>, log: seq<Access>, t: Tape): seq<Access>
    decreases |fields|
  {
    if fields == [] then log
    else
      var v := t(|log|);
      Replace(fields[1..], log + [Read(fields[0].offset, v)] + [Write(fields[0].offset, Merge(v, fields[0]))], t)
  }

  function WriteAll(fields: seq<Field>, log: seq<Access>): seq<Access>
    decreases |fields|
  {
    if fields == [] then log else WriteAll(fields[1..], log + [Write(fields[0].offset, fields[0].value)])
  }

  const LOCKED: Word := Ones({0})
  const UNLOCKED: Word := Ones({})

  /** All four locks read set, and the policy reads back. */
  function Confirm(p: Policy, log: seq<Access>, t: Tape, failure: Error): (seq<Access>, Result<(), Error>) {
    var (locks, locked) := ReadAll(Locks(LOCKED), log, t);
    if !locked then (locks, Err(failure))
    else
      var (all, same) := ReadAll(Checks(p), locks, t);
      (all, if same then Ok(()) else Err(failure))
  }

  function Configure(p: Policy, t: Tape): (seq<Access>, Result<(), Error>) {
    var (looked, unlocked) := ReadAll(Locks(UNLOCKED), [], t);
    if !unlocked then Confirm(p, looked, t, LockedPolicy)
    else
      var (checked, same) := ReadAll(Checks(p), Replace(Updates(p), looked, t), t);
      if !same then (checked, Err(Readback)) else Confirm(p, WriteAll(Locks(LOCKED), checked), t, Readback)
  }

  /** The registers, accessed one at a time. */
  class Registers {
    const tape: Tape
    var log: seq<Access>

    constructor (tape: Tape)
      ensures this.tape == tape && log == []
    {
      this.tape, log := tape, [];
    }

    method ReadRegister(offset: nat) returns (value: Word)
      modifies this
      ensures value == tape(old(|log|)) && log == old(log) + [Read(offset, value)]
    {
      value := tape(|log|);
      log := log + [Read(offset, value)];
    }

    method WriteRegister(offset: nat, value: Word)
      modifies this
      ensures log == old(log) + [Write(offset, value)]
    {
      log := log + [Write(offset, value)];
    }

    method ReadEach(checks: seq<Field>) returns (same: bool)
      modifies this
      ensures (log, same) == ReadAll(checks, old(log), tape)
    {
      for i := 0 to |checks|
        invariant ReadAll(checks[i..], log, tape) == ReadAll(checks, old(log), tape)
      {
        var value := ReadRegister(checks[i].offset);
        assert checks[i..][1..] == checks[i + 1..];
        if !Matches(value, checks[i]) {
          return false;
        }
      }
      assert checks[|checks|..] == [];
      return true;
    }

    method ReplaceBits(f: Field)
      modifies this
      ensures log == old(log) + [Read(f.offset, tape(old(|log|)))] + [Write(f.offset, Merge(tape(old(|log|)), f))]
    {
      var previous := ReadRegister(f.offset);
      WriteRegister(f.offset, Merge(previous, f));
    }

    method ReplaceEach(fields: seq<Field>)
      modifies this
      ensures log == Replace(fields, old(log), tape)
    {
      for i := 0 to |fields|
        invariant Replace(fields[i..], log, tape) == Replace(fields, old(log), tape)
      {
        ReplaceBits(fields[i]);
        assert fields[i..][1..] == fields[i + 1..];
      }
      assert fields[|fields|..] == [];
    }

    method LockEach(fields: seq<Field>)
      modifies this
      ensures log == WriteAll(fields, old(log))
    {
      for i := 0 to |fields|
        invariant WriteAll(fields[i..], log) == WriteAll(fields, old(log))
      {
        WriteRegister(fields[i].offset, fields[i].value);
        assert fields[i..][1..] == fields[i + 1..];
      }
      assert fields[|fields|..] == [];
    }

    method ConfirmLocked(p: Policy, failure: Error) returns (r: Result<(), Error>)
      modifies this
      ensures (log, r) == Confirm(p, old(log), tape, failure)
    {
      hide ReadAll, Locks, Checks;
      var locked := ReadEach(Locks(LOCKED));
      if !locked {
        return Err(failure);
      }
      var same := ReadEach(Checks(p));
      return if same then Ok(()) else Err(failure);
    }

    method Install(p: Policy) returns (r: Result<(), Error>)
      requires log == []
      modifies this
      ensures (log, r) == Configure(p, tape)
    {
      hide ReadAll, Locks, Checks, Confirm, Replace, WriteAll, Updates;
      var unlocked := ReadEach(Locks(UNLOCKED));
      if !unlocked {
        r := ConfirmLocked(p, LockedPolicy);
        return;
      }
      ReplaceEach(Updates(p));
      var same := ReadEach(Checks(p));
      if !same {
        return Err(Readback);
      }
      LockEach(Locks(LOCKED));
      r := ConfirmLocked(p, Readback);
    }
  }

  // ---- What the traces guarantee ----

  predicate NoWrites(log: seq<Access>) {
    forall i :: 0 <= i < |log| ==> log[i].Read?
  }

  /** The accesses from `at` on are the reads of these registers, and every one matches. */
  predicate Confirmed(log: seq<Access>, at: nat, checks: seq<Field>) {
    at + |checks| <= |log| && forall i :: 0 <= i < |checks| ==> ReadsBack(log, at, checks, i)
  }

  predicate ReadsBack(log: seq<Access>, at: nat, checks: seq<Field>, i: nat)
    requires at + |checks| <= |log| && i < |checks|
  {
    log[at + i].Read? && log[at + i].offset == checks[i].offset && Matches(log[at + i].value, checks[i])
  }

  lemma ConfirmedAppend(log: seq<Access>, at: nat, a: seq<Field>, b: seq<Field>)
    requires Confirmed(log, at, a) && Confirmed(log, at + |a|, b)
    ensures Confirmed(log, at, a + b)
  {
    forall i | 0 <= i < |a + b| ensures ReadsBack(log, at, a + b, i) {
      if i < |a| {
        assert ReadsBack(log, at, a, i);
      } else {
        assert ReadsBack(log, at + |a|, b, i - |a|);
      }
    }
  }

  lemma {:induction false} ReadAllReads(checks: seq<Field>, log: seq<Access>, t: Tape)
    ensures var (after, same) := ReadAll(checks, log, t);
            && |log| <= |after| && after[..|log|] == log && NoWrites(after[|log|..])
            && (checks != [] ==> |after| > |log|)
            && (same ==> |after| == |log| + |checks| && Confirmed(after, |log|, checks))
            && (!same ==>
                  && after[|after| - 1].Read? && |after| <= |log| + |checks|
                  && !Matches(after[|after| - 1].value, checks[|after| - 1 - |log|]))
    decreases |checks|
  {
    if checks != [] {
      var v := t(|log|);
      var next := log + [Read(checks[0].offset, v)];
      if Matches(v, checks[0]) {
        ReadAllReads(checks[1..], next, t);
        var after := ReadAll(checks[1..], next, t).0;
        assert after[..|log|] == after[..|next|][..|log|];
        assert after[|log|] == after[..|next|][|log|];
        if ReadAll(checks[1..], next, t).1 {
          assert ReadsBack(after, |log|, [checks[0]], 0);
          ConfirmedAppend(after, |log|, [checks[0]], checks[1..]);
          assert checks == [checks[0]] + checks[1..];
        }
        forall i | 0 <= i < |after| - |log| ensures after[|log|..][i].Read? {
          if i > 0 { assert after[|log|..][i] == after[|next|..][i - 1]; }
        }
      }
    }
  }

  /** A write that is part of an update: right after reading that register, and changing only the field's bits. */
  predicate IsUpdate(log: seq<Access>, k: nat, fields: seq<Field>)
    requires k < |log|
  {
    && k > 0 && log[k].Write? && log[k - 1].Read? && log[k - 1].offset == log[k].offset
    && exists f :: f in fields && f.offset == log[k].offset && log[k].value == Merge(log[k - 1].value, f)
  }

  lemma {:induction false} ReplaceUpdates(fields: seq<Field>, log: seq<Access>, t: Tape)
    ensures var after := Replace(fields, log, t);
            && |log| <= |after| && after[..|log|] == log
            && forall k :: |log| <= k < |after| && after[k].Write? ==> IsUpdate(after, k, fields)
    decreases |fields|
  {
    if fields != [] {
      var v := t(|log|);
      var next := log + [Read(fields[0].offset, v)] + [Write(fields[0].offset, Merge(v, fields[0]))];
      ReplaceUpdates(fields[1..], next, t);
      var after := Replace(fields[1..], next, t);
      assert after[..|log|] == after[..|next|][..|log|];
      assert after[|log|] == after[..|next|][|log|] && after[|log| + 1] == after[..|next|][|log| + 1];
      forall k | |log| <= k < |after| && after[k].Write? ensures IsUpdate(after, k, fields) {
        if k == |log| + 1 {
          assert fields[0] in fields;
        } else {
          assert IsUpdate(after, k, fields[1..]);
        }
      }
    }
  }

  lemma {:induction false} WriteAllWrites(fields: seq<Field>, log: seq<Access>)
    ensures var after := WriteAll(fields, log);
            && |after| == |log| + |fields| && after[..|log|] == log
            && forall i :: 0 <= i < |fields| ==> after[|log| + i] == Write(fields[i].offset, fields[i].value)
    decreases |fields|
  {
    if fields != [] {
      var next := log + [Write(fields[0].offset, fields[0].value)];
      WriteAllWrites(fields[1..], next);
      var after := WriteAll(fields[1..], next);
      assert after[..|log|] == after[..|next|][..|log|];
      assert after[|log|] == after[..|next|][|log|];
    }
  }

  /** After a successful confirmation the last sixteen accesses are reads: every lock set, then the whole policy. */
  lemma ConfirmReads(p: Policy, log: seq<Access>, t: Tape, failure: Error)
    ensures var (after, r) := Confirm(p, log, t, failure);
            && |log| <= |after| && after[..|log|] == log && NoWrites(after[|log|..])
            && (r.Ok? ==> |after| == |log| + 16 && Confirmed(after, |log|, Locks(LOCKED) + Checks(p)))
  {
    hide ReadAll, Matches, Checks, Locks;
    ReadAllReads(Locks(LOCKED), log, t);
    var (locks, locked) := ReadAll(Locks(LOCKED), log, t);
    if locked {
      ReadAllReads(Checks(p), locks, t);
      var after := ReadAll(Checks(p), locks, t).0;
      assert after[..|log|] == after[..|locks|][..|log|];
      forall i | |log| <= i < |after| ensures after[i].Read? {
        if i < |locks| { assert after[i] == after[..|locks|][i] == locks[|log|..][i - |log|]; }
        else { assert after[i] == after[|locks|..][i - |locks|]; }
      }
      if ReadAll(Checks(p), locks, t).1 {
        ConfirmedStays(locks, after, |log|, Locks(LOCKED));
        ConfirmedAppend(after, |log|, Locks(LOCKED), Checks(p));
      }
    }
  }

  /** If any lock was already set, nothing at all is written. */
  lemma LockedMeansNoWrites(p: Policy, t: Tape)
    requires !ReadAll(Locks(UNLOCKED), [], t).1
    ensures NoWrites(Configure(p, t).0)
  {
    hide ReadAll, Confirm, Checks, Locks;
    ReadAllReads(Locks(UNLOCKED), [], t);
    var looked := ReadAll(Locks(UNLOCKED), [], t).0;
    ConfirmReads(p, looked, t, LockedPolicy);
    var after := Confirm(p, looked, t, LockedPolicy).0;
    forall i | 0 <= i < |after| ensures after[i].Read? {
      if i < |looked| { assert after[i] == after[..|looked|][i] == looked[0..][i]; }
      else { assert after[i] == after[|looked|..][i - |looked|]; }
    }
  }

  /** The write at `k` sets a lock, and the twelve accesses before the first lock write read the policy back. */
  predicate LocksAfterReadback(log: seq<Access>, k: nat, p: Policy) {
    exists at: nat :: Confirmed(log, at, Checks(p)) && at + 12 <= k < at + 16 && k < |log| &&
      (forall i :: at + 12 <= i <= k ==> log[i] == Write(Locks(LOCKED)[i - at - 12].offset, LOCKED))
  }

  lemma PrefixKeeps(x: seq<Access>, y: seq<Access>)
    requires |x| <= |y| && y[..|x|] == x
    ensures forall i :: 0 <= i < |x| ==> y[i] == x[i]
  {
    assert forall i :: 0 <= i < |x| ==> y[i] == y[..|x|][i];
  }

  lemma TailReads(log: seq<Access>, from: nat)
    requires from <= |log| && NoWrites(log[from..])
    ensures forall i :: from <= i < |log| ==> log[i].Read?
  {
    assert forall i :: from <= i < |log| ==> log[i] == log[from..][i - from];
  }

  /** The updates, and the policy check after them, of a configuration that found every lock open. */
  lemma UpdatePart(p: Policy, t: Tape) returns (a: nat, b: nat)
    requires ReadAll(Locks(UNLOCKED), [], t).1
    ensures var looked := ReadAll(Locks(UNLOCKED), [], t).0;
            var (checked, same) := ReadAll(Checks(p), Replace(Updates(p), looked, t), t);
            && a <= b <= |checked|
            && (forall k :: a <= k < b && checked[k].Write? ==> IsUpdate(checked, k, Updates(p)))
            && (forall i :: 0 <= i < |checked| && !(a <= i < b) ==> checked[i].Read?)
            && (same ==> |checked| == b + 12 && Confirmed(checked, b, Checks(p)))
  {
    hide ReadAll, Checks, Locks, Updates, Replace, Confirmed;
    var looked := ReadAll(Locks(UNLOCKED), [], t).0;
    ReadAllReads(Locks(UNLOCKED), [], t);
    TailReads(looked, 0);
    var updated := Replace(Updates(p), looked, t);
    ReplaceUpdates(Updates(p), looked, t);
    PrefixKeeps(looked, updated);
    var checked := ReadAll(Checks(p), updated, t).0;
    ReadAllReads(Checks(p), updated, t);
    PrefixKeeps(updated, checked);
    TailReads(checked, |updated|);
    a, b := |looked|, |updated|;
    forall k | a <= k < b && checked[k].Write? ensures IsUpdate(checked, k, Updates(p)) {
      assert IsUpdate(updated, k, Updates(p));
    }
  }

  /** The lock writes, and what follows them. */
  lemma LockPart(p: Policy, t: Tape, checked: seq<Access>)
    ensures var n := |checked|;
            var (log, r) := Confirm(p, WriteAll(Locks(LOCKED), checked), t, Readback);
            && |log| >= n + 4 && log[..n] == checked
            && (forall i :: n <= i < n + 4 ==> log[i] == Write(Locks(LOCKED)[i - n].offset, LOCKED))
            && (forall i :: n + 4 <= i < |log| ==> log[i].Read?)
  {
    hide ReadAll, Confirm, Checks;
    var locked := WriteAll(Locks(LOCKED), checked);
    WriteAllWrites(Locks(LOCKED), checked);
    ConfirmReads(p, locked, t, Readback);
    var log := Confirm(p, locked, t, Readback).0;
    PrefixKeeps(locked, log);
    PrefixKeeps(checked, locked);
    TailReads(log, |checked| + 4);
    LocksAreOn();
    forall i | |checked| <= i < |checked| + 4 ensures log[i] == Write(Locks(LOCKED)[i - |checked|].offset, LOCKED) {
      assert locked[|checked| + (i - |checked|)] == locked[i];
    }
  }

  lemma LocksAreOn()
    ensures forall i :: 0 <= i < 4 ==> Locks(LOCKED)[i].value == LOCKED
  {
  }

  lemma ConfirmedStays(x: seq<Access>, y: seq<Access>, at: nat, checks: seq<Field>)
    requires |x| <= |y| && y[..|x|] == x && Confirmed(x, at, checks)
    ensures Confirmed(y, at, checks)
  {
    PrefixKeeps(x, y);
    forall i | 0 <= i < |checks| ensures ReadsBack(y, at, checks, i) {
      assert ReadsBack(x, at, checks, i) && y[at + i] == x[at + i];
    }
  }

  /**
   * Every write is either an update that keeps the register's last-read bits outside its field, or a lock written
   * only after every permission and monitor has read back as the policy. This holds whatever the registers do.
   */
  lemma LocksOnlyAfterReadback(p: Policy, t: Tape, k: nat)
    requires k < |Configure(p, t).0| && Configure(p, t).0[k].Write?
    ensures IsUpdate(Configure(p, t).0, k, Updates(p)) || LocksAfterReadback(Configure(p, t).0, k, p)
  {
    hide ReadAll, Checks, Updates, Confirm, Locks, Confirmed, Replace, WriteAll;
    var log := Configure(p, t).0;
    if !ReadAll(Locks(UNLOCKED), [], t).1 {
      LockedMeansNoWrites(p, t);
    } else {
      var a, b := UpdatePart(p, t);
      var (checked, same) := ReadAll(Checks(p), Replace(Updates(p), ReadAll(Locks(UNLOCKED), [], t).0, t), t);
      if same {
        LockPart(p, t, checked);
        PrefixKeeps(checked, log);
        ConfirmedStays(checked, log, b, Checks(p));
        if k < |checked| {
          assert IsUpdate(checked, k, Updates(p));
        }
      }
    }
  }

  /** No update before the locks touches a lock register. */
  lemma UpdatesTouchNoLock(p: Policy, f: Field, i: nat)
    requires f in Updates(p) && i < 4
    ensures f.offset != Locks(LOCKED)[i].offset
  {
  }

  /** Success means the policy is in force and locked: the last sixteen accesses read that, and nothing follows. */
  lemma OkMeansLocked(p: Policy, t: Tape)
    requires Configure(p, t).1.Ok?
    ensures var log := Configure(p, t).0;
            |log| >= 16 && Confirmed(log, |log| - 16, Locks(LOCKED) + Checks(p))
  {
    hide ReadAll, Confirm, Checks, Locks, Updates, Replace, WriteAll, Confirmed;
    var (looked, unlocked) := ReadAll(Locks(UNLOCKED), [], t);
    if !unlocked {
      ConfirmReads(p, looked, t, LockedPolicy);
    } else {
      var checked := ReadAll(Checks(p), Replace(Updates(p), looked, t), t).0;
      ConfirmReads(p, WriteAll(Locks(LOCKED), checked), t, Readback);
    }
  }

  // ---- Which accesses there are, and what decides the result ----

  /** From call `at` on, the registers answer as these checks want. */
  predicate AnswersMatch(t: Tape, at: nat, checks: seq<Field>) {
    forall i :: 0 <= i < |checks| ==> Matches(t(at + i), checks[i])
  }

  /** A register passes a check exactly if, masked, it is the expected value: the same inside the mask, nothing outside. */
  lemma MatchesIsMasked(value: Word, f: Field)
    ensures Matches(value, f) <==>
            && (forall i :: 0 <= i < 32 && f.lo <= i < f.hi ==> value[i] == f.value[i])
            && (forall i :: 0 <= i < 32 && !(f.lo <= i < f.hi) ==> !f.value[i])
  {
  }

  lemma AnswersInParts(t: Tape, at: nat, a: seq<Field>, b: seq<Field>)
    ensures AnswersMatch(t, at, a + b) <==> AnswersMatch(t, at, a) && AnswersMatch(t, at + |a|, b)
  {
    if AnswersMatch(t, at, a + b) {
      assert forall i :: 0 <= i < |a| ==> (a + b)[i] == a[i];
      forall i | 0 <= i < |b| ensures Matches(t(at + |a| + i), b[i]) {
        assert Matches(t(at + (|a| + i)), (a + b)[|a| + i]);
      }
    }
  }

  lemma {:induction false} ReadAllExactly(checks: seq<Field>, log: seq<Access>, t: Tape)
    ensures var (after, same) := ReadAll(checks, log, t);
            && (same <==> AnswersMatch(t, |log|, checks))
            && (same ==> |after| == |log| + |checks|)
    decreases |checks|
  {
    if checks != [] {
      var next := log + [Read(checks[0].offset, t(|log|))];
      assert [checks[0]] + checks[1..] == checks;
      AnswersInParts(t, |log|, [checks[0]], checks[1..]);
      assert AnswersMatch(t, |log|, [checks[0]]) <==> Matches(t(|log|), checks[0]);
      ReadAllExactly(checks[1..], next, t);
    }
  }

  /** Each field in turn: its register is read, and written back with the field in place. */
  predicate Replaces(after: seq<Access>, at: nat, fields: seq<Field>, t: Tape) {
    at + 2 * |fields| <= |after| && forall j :: 0 <= j < |fields| ==> ReplacedAt(after, at + 2 * j, fields[j], t)
  }

  predicate ReplacedAt(after: seq<Access>, k: nat, f: Field, t: Tape) {
    k + 1 < |after| && after[k] == Read(f.offset, t(k)) && after[k + 1] == Write(f.offset, Merge(t(k), f))
  }

  lemma {:induction false} ReplaceExactly(fields: seq<Field>, log: seq<Access>, t: Tape)
    ensures var after := Replace(fields, log, t);
            |after| == |log| + 2 * |fields| && after[..|log|] == log && Replaces(after, |log|, fields, t)
    decreases |fields|
  {
    if fields != [] {
      var next := log + [Read(fields[0].offset, t(|log|))] + [Write(fields[0].offset, Merge(t(|log|), fields[0]))];
      ReplaceExactly(fields[1..], next, t);
      var after := Replace(fields[1..], next, t);
      PrefixKeeps(next, after);
      assert after[..|log|] == log;
      forall j | 0 <= j < |fields| ensures ReplacedAt(after, |log| + 2 * j, fields[j], t) {
        if j > 0 { assert ReplacedAt(after, |next| + 2 * (j - 1), fields[1..][j - 1], t); }
      }
    }
  }

  lemma ConfirmExactly(p: Policy, log: seq<Access>, t: Tape, failure: Error)
    ensures Confirm(p, log, t, failure).1 ==
            if AnswersMatch(t, |log|, Locks(LOCKED) + Checks(p)) then Ok(()) else Err(failure)
  {
    hide ReadAll, Locks, Checks, AnswersMatch;
    AnswersInParts(t, |log|, Locks(LOCKED), Checks(p));
    ReadAllExactly(Locks(LOCKED), log, t);
    ReadAllExactly(Checks(p), ReadAll(Locks(LOCKED), log, t).0, t);
  }

  /**
   * With every lock open: twenty read-and-write pairs install the policy, clearing and disabling each monitor before
   * the first permission and enabling it after the last; then the policy is read back, locked, and read back again,
   * and exactly if all of that matches the result is a success.
   */
  lemma ConfiguresExactly(p: Policy, t: Tape)
    requires AnswersMatch(t, 0, Locks(UNLOCKED))
    ensures var (log, r) := Configure(p, t);
            && |log| >= 44 && Replaces(log, 4, Updates(p), t)
            && r == if AnswersMatch(t, 44, Checks(p)) && AnswersMatch(t, 60, Locks(LOCKED) + Checks(p))
                    then Ok(()) else Err(Readback)
  {
    hide ReadAll, Checks, Locks, Updates, Replace, Confirm, WriteAll, AnswersMatch, ReplacedAt;
    ReadAllExactly(Locks(UNLOCKED), [], t);
    var looked := ReadAll(Locks(UNLOCKED), [], t).0;
    var updated := Replace(Updates(p), looked, t);
    ReplaceExactly(Updates(p), looked, t);
    TwentyUpdates(p);
    ReadAllExactly(Checks(p), updated, t);
    ReadAllReads(Checks(p), updated, t);
    var (checked, same) := ReadAll(Checks(p), updated, t);
    PrefixKeeps(updated, checked);
    var log := Configure(p, t).0;
    if same {
      LockPart(p, t, checked);
      PrefixKeeps(checked, log);
      WriteAllWrites(Locks(LOCKED), checked);
      ConfirmExactly(p, WriteAll(Locks(LOCKED), checked), t, Readback);
    }
    ReplacesKept(updated, log, 4, Updates(p), t);
  }

  lemma TwentyUpdates(p: Policy)
    ensures |Updates(p)| == 20
  {
  }

  lemma ReplacesKept(x: seq<Access>, y: seq<Access>, at: nat, fields: seq<Field>, t: Tape)
    requires |x| <= |y| && Replaces(x, at, fields, t) && forall i :: 0 <= i < |x| ==> y[i] == x[i]
    ensures Replaces(y, at, fields, t)
  {
    forall j | 0 <= j < |fields| ensures ReplacedAt(y, at + 2 * j, fields[j], t) {
      assert ReplacedAt(x, at + 2 * j, fields[j], t);
    }
  }

  /** A bit field with exactly these bits set. */
  predicate Sets(f: Field, offset: nat, lo: nat, hi: nat, bits: set<int>) {
    f.offset == offset && f.lo == lo && f.hi == hi && forall i :: 0 <= i < 32 ==> f.value[i] == (i in bits)
  }

  /** The four monitors: bit 0 clears a latched fault, bit 1 enables, and the check wants bit 2, a fault, clear. */
  lemma UpdatesInOrder(p: Policy, k: nat)
    requires k < 4
    ensures var monitor := [0x20, 0x34, 0x54, 0x68][k];
            && |Updates(p)| == 20 && Updates(p)[8..16] == Permissions(p)
            && Sets(Updates(p)[2 * k], monitor, 0, 2, {0}) && Sets(Updates(p)[2 * k + 1], monitor, 0, 2, {})
            && Sets(Updates(p)[16 + k], monitor, 0, 2, {1}) && Sets(Checks(p)[8 + k], monitor, 0, 3, {1})
            && Sets(Locks(LOCKED)[k], [0x10, 0x28, 0x3c, 0x5c][k], 0, 1, {0})
            && Sets(Locks(UNLOCKED)[k], [0x10, 0x28, 0x3c, 0x5c][k], 0, 1, {})
            && Checks(p)[..8] == Permissions(p)
  {
  }

  /** If any lock was set already, success means that all of them are and the policy is the one wanted. */
  lemma LockedExactly(p: Policy, t: Tape)
    requires !AnswersMatch(t, 0, Locks(UNLOCKED))
    ensures var (log, r) := Configure(p, t);
            var n := |ReadAll(Locks(UNLOCKED), [], t).0|;
            && n <= 4 && NoWrites(log)
            && r == if AnswersMatch(t, n, Locks(LOCKED) + Checks(p)) then Ok(()) else Err(LockedPolicy)
  {
    hide ReadAll, Checks, Locks, Updates, Replace, Confirm, WriteAll, AnswersMatch;
    ReadAllExactly(Locks(UNLOCKED), [], t);
    ReadAllReads(Locks(UNLOCKED), [], t);
    LockedMeansNoWrites(p, t);
    ConfirmExactly(p, ReadAll(Locks(UNLOCKED), [], t).0, t, LockedPolicy);
  }

  // ---- What the policy permits ----

  /** Internal memory: four coarse blocks, the code and data parts of the fine one, and RTC memory around its splits. */
  datatype Region = Coarse(k: nat) | Code | Data | RtcFast(high: bool) | RtcSlow(high: bool)

  datatype Bus = Iram | Dram | Dport | Ahb | AhbAlias

  datatype Right = Fetch | Load | Store

  /** The register field, of the eight, and the bit in it that gives a bus a right to a region. */
  function RightBit(region: Region, bus: Bus, right: Right): (b: Option<(nat, nat)>)
    ensures b.Some? ==> b.value.0 < 8 && b.value.1 < 32
  {
    var r3 := if right.Fetch? then 0 else if right.Load? then 1 else 2; // fetch, read, write
    var r2 := if right.Load? then 0 else 1;                            // read, write
    match (region, bus)
    case (Coarse(k), Iram) => if k < 4 then Some((0, 3 * k + r3)) else None
    case (Code, Iram) => Some((1, 17 + r3))
    case (Data, Iram) => Some((1, 20 + r3))
    case (RtcFast(high), Iram) => Some((2, if high then 14 + r3 else 11 + r3))
    case (Coarse(k), Dram) => if k < 4 && !right.Fetch? then Some((3, 2 * k + r2)) else None
    case (Code, Dram) => if right.Fetch? then None else Some((3, 25 + r2))
    case (Data, Dram) => if right.Fetch? then None else Some((3, 27 + r2))
    case (RtcFast(high), Dram) => if right.Fetch? then None else Some((4, if high then 13 + r2 else 11 + r2))
    case (RtcSlow(high), Dport) => if right.Fetch? then None else Some((5, if high then 14 + r2 else 12 + r2))
    case (RtcSlow(high), Ahb) => Some((6, if high then 14 + r3 else 11 + r3))
    case (RtcSlow(high), AhbAlias) => Some((7, if high then 14 + r3 else 11 + r3))
    case _ => None
  }

  predicate May(p: Policy, region: Region, bus: Bus, right: Right) {
    var b := RightBit(region, bus, right);
    b.Some? && Permissions(p)[b.value.0].value[b.value.1]
  }

  lemma SplitRights(p: Policy)
    ensures forall i :: 17 <= i < 23 ==> Permissions(p)[1].value[i] == (i == 17 || i == 18)
    ensures forall i :: 0 <= i < 8 ==> Permissions(p)[3].value[i] == (i % 2 == 0)
    ensures forall i :: 25 <= i < 29 ==> Permissions(p)[3].value[i] == (i == 25 || i == 27 || i == 28)
  {
  }

  /**
   * The policy: code, and every coarse block, can be fetched and read on the instruction bus and only read on the data
   * bus; data and RTC memory can be read and written on one bus each, and no other bus reaches them.
   */
  lemma PolicyPermits(p: Policy, region: Region, bus: Bus, right: Right)
    ensures May(p, region, bus, right) <==>
            match region
            case Coarse(k) => k < 4 && ((bus == Iram && right != Store) || (bus == Dram && right == Load))
            case Code => (bus == Iram && right != Store) || (bus == Dram && right == Load)
            case Data => bus == Dram && right != Fetch
            case RtcFast(_) => bus == Dram && right != Fetch
            case RtcSlow(_) => bus == Ahb && right != Fetch
  {
    hide WithSplit, SplitBits17;
    SplitRights(p);
  }

  /** Every one of these bits is inside the mask of its field, so it is installed and checked; and so is either split. */
  lemma RightsAreInstalled(p: Policy, region: Region, bus: Bus, right: Right)
    ensures var b := RightBit(region, bus, right);
            b.Some? ==>
              var f := Permissions(p)[b.value.0];
              && f.lo <= b.value.1 < f.hi
              && f.offset == [0x14, 0x18, 0x1c, 0x2c, 0x30, 0x40, 0x60, 0x64][b.value.0]
    ensures Permissions(p)[1].lo == 0 && Permissions(p)[3].lo <= 8 && Permissions(p)[3].hi >= 25
  {
  }

  /** So no memory that any bus may write can be fetched from, on any bus. */
  lemma NothingIsWritableAndExecutable(p: Policy, region: Region, writer: Bus, fetcher: Bus)
    ensures !(May(p, region, writer, Store) && May(p, region, fetcher, Fetch))
  {
    hide May;
    PolicyPermits(p, region, writer, Store);
    PolicyPermits(p, region, fetcher, Fetch);
  }

  // ---- The two splits ----

  /** A freshly merged field passes its own check: no value has a bit outside its mask. */
  lemma MergedMatches(p: Policy, i: nat, previous: Word)
    requires i < 8
    ensures Matches(Merge(previous, Permissions(p)[i]), Permissions(p)[i])
  {
  }

  /** The low seventeen bits of a number spell its remainder. */
  lemma LowBits(q: nat, r: nat)
    requires r < 0x2_0000
    ensures FromBits(ToBits(0x2_0000 * q + r, 17)) == r
  {
    Pow2Of17();
    ShiftUpIsTimes(q, 17);
    assert ShiftUp(q, 17) == 0x2_0000 * q;
    SplitBits(q, r, 17, 0);
    assert ToBits(r, 17) + [] == ToBits(r, 17);
    FromToBits(r, 17);
  }

  /** The address a split field stands for on its bus. */
  function Decoded(field: Bitstring, base: nat): nat {
    base + 4 * FromBits(field)
  }

  /**
   * For every legal split the two fields decode to one address: what the instruction bus sees at `iramEnd` is what
   * the data bus sees 0x70000 below it.
   */
  lemma SplitsAreAliases(iramEnd: u32, dataStart: u32)
    requires NewPolicy(iramEnd, dataStart).Ok?
    ensures Decoded(Permissions(Policy(iramEnd, dataStart))[1].value[..17], 0x4000_0000) == iramEnd
    ensures Decoded(Permissions(Policy(iramEnd, dataStart))[3].value[8..25], 0x3ff8_0000) == dataStart
    ensures iramEnd - dataStart == SRAM_ALIAS_OFFSET
  {
    hide ToBits, FromBits;
    SplitField({17, 18}, 0, SplitBits17(iramEnd));
    SplitField({0, 2, 4, 6, 25, 27, 28}, 8, SplitBits17(dataStart));
    var f := (iramEnd - 0x4000_0000) / 4;
    assert iramEnd / 4 == 0x2_0000 * 0x800 + f;
    LowBits(0x800, f);
    var g := (dataStart - 0x3ff8_0000) / 4;
    assert dataStart / 4 == 0x2_0000 * 0x7ff + g;
    LowBits(0x7ff, g);
  }

  /** Exactly the word-aligned splits of the fine region make a policy, with the alias as its data start. */
  lemma AcceptsExactly(iramEnd: u32, dataStart: u32)
    ensures NewPolicy(iramEnd, dataStart) ==
            if 0x4002_8000 <= iramEnd <= 0x4004_fffc && iramEnd % 4 == 0 && dataStart + 0x7_0000 == iramEnd
            then Ok(Policy(iramEnd, dataStart)) else Err(Layout)
  {
  }

  lemma SplitField(bits: set<int>, at: nat, split: Bitstring)
    requires at + |split| <= 32
    ensures WithSplit(bits, at, split)[at..at + |split|] == split
  {
  }

  lemma Pow2Of17()
    ensures Pow2(17) == 0x2_0000
  {
    assert Pow2(4) == 16;
    assert Pow2(8) == 0x100;
    assert Pow2(12) == 0x1000;
    assert Pow2(16) == 0x1_0000;
  }
}
