/**
 The register mailbox to the PHY firmware (arht_hsgmii.c 1246-1270 and 1318-1434): the host numbers its
 commands and puts the parity of the number in the command word; the firmware takes a command whose parity is
 not the one its status shows, and shows that parity when it has serviced it.
 */
module PhyIpc {
  import opened Wrappers

  const NB_OPCODE: nat := 64 // 1 << IPC_NB_OPCODE
  const NB_SIZE: nat := 32 // 1 << IPC_PAYLOAD_NB
  const NB_STATUS: nat := 16 // 1 << IPC_NB_STATUS
  const WORD: nat := 0x1_0000

  const RCVD: nat := 0x1
  const PROCESS: nat := 0x2
  const SUCCESS: nat := 0x4
  const ERROR: nat := 0x8
  const NOOP: nat := 0

  // ---------------------------------------------------------------- the words

  /** The fields of the status word, [1 parity][5 size][6 opcode][4 status]. */
  datatype Sts = Sts(par: nat, size: nat, opcode: nat, status: nat)

  predicate InRange(f: Sts) { f.par < 2 && f.size < NB_SIZE && f.opcode < NB_OPCODE && f.status < NB_STATUS }

  function PackSts(f: Sts): (w: nat)
    requires InRange(f)
    ensures w < WORD
  {
    ((f.par * NB_SIZE + f.size) * NB_OPCODE + f.opcode) * NB_STATUS + f.status
  }

  /** aeon_ipc_parse_sts: mask, shift, mask, shift, mask, shift. */
  function ParseSts(w: nat): (f: Sts)
    requires w < WORD
    ensures InRange(f) && PackSts(f) == w
  {
    var w1 := w / NB_STATUS;
    var w2 := w1 / NB_OPCODE;
    var w3 := w2 / NB_SIZE;
    Sts(w3 % 2, w2 % NB_SIZE, w1 % NB_OPCODE, w % NB_STATUS)
  }

  lemma ParsePack(f: Sts)
    requires InRange(f)
    ensures ParseSts(PackSts(f)) == f
  {
    var a := f.par * NB_SIZE + f.size;
    var b := a * NB_OPCODE + f.opcode;
    assert PackSts(f) / NB_STATUS == b && b / NB_OPCODE == a && a / NB_SIZE == f.par;
  }

  /** Status in bits 0 to 3, opcode in 4 to 9, size in 10 to 14, parity in bit 15. */
  lemma StsFields(w: nat)
    requires w < 0x1_0000
    ensures var f := ParseSts(w);
            && f.status == w % 16 && f.opcode == w / 16 % 64 && f.size == w / 1024 % 32 && f.par == w / 0x8000
  {
    assert w / NB_STATUS / NB_OPCODE == w / 1024 && w / 1024 / NB_SIZE == w / 0x8000;
  }

  /** aeon_ipc_build_cmd for command number `num`: [1 parity][4 reserved][5 size][6 opcode]. */
  function PackCmd(num: nat, opcode: int, size: int): (w: nat)
    ensures w < WORD
  {
    num % 2 * 0x8000 + size % NB_SIZE * NB_OPCODE + opcode % NB_OPCODE
  }

  /** The fields of a command word where the layout puts them; the reserved bits are clear. */
  lemma CmdFields(num: nat, opcode: int, size: int)
    ensures var w := PackCmd(num, opcode, size);
            && w / 0x8000 == num % 2 && w / 0x800 % 16 == 0 && w / 64 % 32 == size % 32 && w % 64 == opcode % 64
  {
    var s, o := size % NB_SIZE, opcode % NB_OPCODE;
    var w := PackCmd(num, opcode, size);
    assert w == (num % 2 * 512 + s) * NB_OPCODE + o;
    assert w / NB_OPCODE == num % 2 * 512 + s;
    assert w / (NB_OPCODE * NB_SIZE) == num % 2 * 16;
  }

  /** The loop condition of aeon_ipc_wait_cmd_done after a poll; `num` is one past the command waited for. */
  predicate Exits(num: nat, f: Sts) { f.status == ERROR || (num % 2 != f.par && f.status == SUCCESS) }

  class Host {
    var cmdNum: nat // ipc_cmd_num

    ghost predicate Valid() reads this { cmdNum < 0x1_0000_0000 }

    /** aeon_ipc_build_cmd; the counter is 32 bits wide, an even number of values, so parity alternates across the wrap. */
    method BuildCmd(opcode: int, size: int) returns (cmd: nat)
      requires Valid()
      modifies this
      ensures Valid() && cmdNum == (old(cmdNum) + 1) % 0x1_0000_0000 && cmdNum % 2 != old(cmdNum) % 2
      ensures cmd == PackCmd(old(cmdNum), opcode, size)
    {
      cmd := size % NB_SIZE * NB_OPCODE + opcode % NB_OPCODE;
      if cmdNum % 2 != 0 { cmd := cmd + 0x8000; }
      cmdNum := if cmdNum == 0xFFFF_FFFF then 0 else cmdNum + 1;
    }

    /** aeon_ipc_wait_cmd_done over the words it reads before it times out: the first one it accepts. */
    method WaitCmdDone(polls: seq<nat>) returns (status: nat, size: nat, k: nat)
      requires |polls| > 0 && forall i :: 0 <= i < |polls| ==> polls[i] < WORD
      ensures k < |polls| && status == ParseSts(polls[k]).status && size == ParseSts(polls[k]).size
      ensures forall i :: 0 <= i < k ==>
                var f := ParseSts(polls[i]); f.status != 8 && (f.status != 4 || f.par == cmdNum % 2)
      ensures k < |polls| - 1 ==>
                var f := ParseSts(polls[k]); f.status == 8 || (f.status == 4 && f.par != cmdNum % 2)
    {
      var par := false;
      var n := 0;
      status, size := 0, 0;
      while !par || (status != SUCCESS && status != ERROR)
        invariant n < |polls| || (n == |polls| && par && status == SUCCESS)
        invariant forall i :: 0 <= i < n - 1 ==> !Exits(cmdNum, ParseSts(polls[i]))
        invariant n == 0 ==> !par
        invariant n > 0 ==> var f := ParseSts(polls[n - 1]);
                            status == f.status != ERROR && size == f.size && par == (cmdNum % 2 != f.par)
        decreases |polls| - n
      {
        var f := ParseSts(polls[n]);
        n := n + 1;
        status, size := f.status, f.size;
        par := cmdNum % 2 != f.par;
        if status == ERROR { break; }
        if n == |polls| { break; }
      }
      k := n - 1;
    }

    /** aeon_ipc_sync_parity: the two words written, and whether a status read before the timeout had the parity. */
    method SyncParity(polls: seq<nat>) returns (first: nat, second: nat, par: bool)
      requires Valid() && |polls| > 0 && forall i :: 0 <= i < |polls| ==> polls[i] < WORD
      modifies this
      ensures Valid() && cmdNum == (old(cmdNum) + 2) % 0x1_0000_0000
      ensures first == PackCmd(old(cmdNum), NOOP, 0) && second / 0x8000 != first / 0x8000 && second % 0x8000 == 0
      ensures par <==> exists i :: 0 <= i < |polls| && ParseSts(polls[i]).par == second / 0x8000
    {
      ghost var num := cmdNum;
      first := BuildCmd(NOOP, 0);
      second := BuildCmd(NOOP, 0);
      CmdFields(num, NOOP, 0);
      CmdFields((num + 1) % 0x1_0000_0000, NOOP, 0);
      par := false;
      var n := 0;
      while !par
        invariant n <= |polls| && (par || n < |polls|)
        invariant par ==> n > 0 && ParseSts(polls[n - 1]).par == second / 0x8000
        invariant !par ==> forall i :: 0 <= i < n ==> ParseSts(polls[i]).par != second / 0x8000
        decreases |polls| - n, !par
      {
        par := cmdNum % 2 != ParseSts(polls[n]).par;
        n := n + 1;
        if n == |polls| { break; }
      }
    }
  }

  // ---------------------------------------------------------------- the two ends

  datatype Cmd = Cmd(id: nat, opcode: int, size: int)

  /**
   `num` is ipc_cmd_num, `reg` the command register, `sts` the status register, `busy` the command the firmware
   has taken and not finished, `served` the commands it has finished, `waiting` whether the host is in
   aeon_ipc_wait_cmd_done.
   */
  datatype Sys = Sys(num: nat, reg: Cmd, sts: Sts, busy: Option<Cmd>, served: seq<nat>, waiting: bool)

  datatype Event =
    | Send(opcode: int, size: int) // build, write, start waiting
    | Poll // one turn of the wait loop
    | Receive(early: bool) // the firmware takes a command; early: the parity is shown at once
    | Process
    | Finish(ok: bool, answer: nat)

  function Write(s: Sys, opcode: int, size: int): Sys {
    s.(num := s.num + 1, reg := Cmd(s.num, opcode, size))
  }

  /** An event that is not possible changes nothing. */
  function Next(s: Sys, e: Event): Sys {
    match e
    case Send(opcode, size) => if s.waiting then s else Write(s, opcode, size).(waiting := true)
    case Poll => if s.waiting && Exits(s.num, s.sts) then s.(waiting := false) else s
    case Receive(early) =>
      if s.busy.None? && s.reg.id % 2 != s.sts.par then
        s.(busy := Some(s.reg), sts := s.sts.(status := RCVD, par := if early then s.reg.id % 2 else s.sts.par))
      else s
    case Process => if s.busy.Some? then s.(sts := s.sts.(status := PROCESS)) else s
    case Finish(ok, answer) =>
      if s.busy.Some? then
        var c := s.busy.value;
        s.(busy := None, served := s.served + [c.id],
           sts := Sts(c.id % 2, answer % NB_SIZE, c.opcode % NB_OPCODE, if ok then SUCCESS else ERROR))
      else s
  }

  function Run(s: Sys, es: seq<Event>): Sys
    decreases |es|
  {
    if es == [] then s else Next(Run(s, es[..|es| - 1]), es[|es| - 1])
  }

  // ---------------------------------------------------------------- in step

  /** The finished commands numbered base or more, in order of finishing. */
  function Since(served: seq<nat>, base: nat): seq<nat>
    decreases |served|
  {
    if served == [] then []
    else
      var last := served[|served| - 1];
      Since(served[..|served| - 1], base) + if last >= base then [last] else []
  }

  function Numbers(base: nat, n: nat): (r: seq<nat>)
    requires base <= n
    ensures |r| == n - base && forall i :: 0 <= i < n - base ==> r[i] == base + i
  {
    if base == n then [] else Numbers(base, n - 1) + [n - 1]
  }

  predicate Underway(s: Sys) { s.busy.Some? ==> s.sts.status == RCVD || s.sts.status == PROCESS }

  /** A command from before base may still be under way, but shows its parity already. */
  predicate OnlyOldBusy(s: Sys, base: nat) { s.busy.Some? ==> s.busy.value.id < base && s.busy.value.id % 2 == s.sts.par }

  predicate Ready(s: Sys, base: nat) {
    && base <= s.num && !s.waiting && s.sts.par != s.num % 2 && s.reg.id % 2 != s.num % 2 && OnlyOldBusy(s, base)
    && Since(s.served, base) == Numbers(base, s.num)
  }

  /** The command is written, and the firmware has not seen it. */
  predicate Unseen(s: Sys, base: nat) {
    && s.waiting && s.num > base && s.reg.id == s.num - 1 && s.sts.par == s.num % 2 && OnlyOldBusy(s, base)
    && Since(s.served, base) == Numbers(base, s.num - 1)
  }

  predicate Taken(s: Sys, base: nat) {
    && s.waiting && s.num > base && s.reg.id == s.num - 1 && s.busy == Some(s.reg)
    && Since(s.served, base) == Numbers(base, s.num - 1)
  }

  predicate Finished(s: Sys, base: nat) {
    && s.waiting && s.num > base && s.reg.id == s.num - 1 && s.busy == None
    && s.sts.par == s.reg.id % 2 && s.sts.opcode == s.reg.opcode % NB_OPCODE
    && (s.sts.status == SUCCESS || s.sts.status == ERROR)
    && s.served != [] && s.served[|s.served| - 1] == s.reg.id
    && Since(s.served, base) == Numbers(base, s.num)
  }

  /** Host and firmware are in step, counting from command `base`. */
  predicate Inv(s: Sys, base: nat) {
    InRange(s.sts) && Underway(s) && (Ready(s, base) || Unseen(s, base) || Taken(s, base) || Finished(s, base))
  }

  /** The wait loop would stop on an ERROR that the command waited for has not caused: its parity is the old one. */
  predicate StaleError(s: Sys) { s.waiting && s.sts.status == ERROR && s.sts.par == s.num % 2 }

  lemma SinceSnoc(served: seq<nat>, x: nat, base: nat)
    ensures Since(served + [x], base) == Since(served, base) + if x >= base then [x] else []
  {
    assert (served + [x])[..|served|] == served;
  }

  lemma SinceLast(served: seq<nat>, base: nat)
    requires served != [] && served[|served| - 1] >= base
    ensures Since(served, base) != [] && Since(served, base)[|Since(served, base)| - 1] == served[|served| - 1]
  {}

  /** Every event keeps the ends in step, except a poll that takes a stale ERROR; and that one always breaks it. */
  lemma StepKeepsStep(s: Sys, base: nat, e: Event)
    requires Inv(s, base)
    ensures Inv(Next(s, e), base) <==> !(e.Poll? && StaleError(s))
  {
    if s.busy.Some? { SinceSnoc(s.served, s.busy.value.id, base); }
    hide Since;
  }

  /** A wait that ends with SUCCESS, or with an ERROR that is not stale, ends with the answer to its own command. */
  lemma AnswerBelongsToCommand(s: Sys, base: nat)
    requires Inv(s, base) && s.waiting && Exits(s.num, s.sts)
    ensures s.sts.status == SUCCESS ==> !StaleError(s)
    ensures !StaleError(s) <==> s.served != [] && s.served[|s.served| - 1] == s.num - 1
    ensures !StaleError(s) ==> s.sts.opcode == s.reg.opcode % NB_OPCODE && s.sts.par == (s.num - 1) % 2
                               && Since(s.served, base) == Numbers(base, s.num)
  {
    hide Numbers;
    if s.served != [] && s.served[|s.served| - 1] >= base { SinceLast(s.served, base); }
    hide Since;
  }

  lemma {:induction false} RunKeepsStep(s: Sys, base: nat, es: seq<Event>)
    requires Inv(s, base)
    requires forall i :: 0 <= i < |es| ==> !(es[i].Poll? && StaleError(Run(s, es[..i])))
    ensures Inv(Run(s, es), base)
    decreases |es|
  {
    if es != [] {
      var init := es[..|es| - 1];
      forall i | 0 <= i < |init|
        ensures !(init[i].Poll? && StaleError(Run(s, init[..i])))
      {
        assert init[..i] == es[..i];
      }
      RunKeepsStep(s, base, init);
      StepKeepsStep(Run(s, init), base, es[|es| - 1]);
    }
  }

  /**
   If the firmware reports no error, then after any run every command that was waited for has been serviced
   exactly once, in order, and nothing else has.
   */
  lemma {:induction false} EachServicedOnce(s: Sys, base: nat, es: seq<Event>)
    requires Inv(s, base) && s.sts.status != ERROR
    requires forall i :: 0 <= i < |es| ==> es[i].Finish? ==> es[i].ok
    ensures var s' := Run(s, es);
            && Inv(s', base) && s'.sts.status != ERROR
            && (!s'.waiting ==> base <= s'.num && Since(s'.served, base) == Numbers(base, s'.num))
    decreases |es|
  {
    if es != [] {
      EachServicedOnce(s, base, es[..|es| - 1]);
      StepKeepsStep(Run(s, es[..|es| - 1]), base, es[|es| - 1]);
    }
  }

  // ---------------------------------------------------------------- getting in step

  predicate FirmwareEvents(es: seq<Event>) { forall i :: 0 <= i < |es| ==> !es[i].Send? && !es[i].Poll? }

  /** A command is under way whose parity does not show yet, and is not that of the next command. */
  predicate Late(s: Sys) { s.busy.Some? && s.busy.value.id % 2 != s.sts.par && s.busy.value.id % 2 != s.num % 2 }

  /** Nothing is under way and nothing is pending: the command written last was serviced, or will be ignored. */
  predicate Settled(s: Sys) { s.busy.None? && s.reg.id % 2 == s.sts.par }

  predicate Below(s: seq<nat>, n: nat) { forall i :: 0 <= i < |s| ==> s[i] < n }

  /** What firmware events keep after the second NOOP, number n, was written with nothing late. */
  predicate SecondNoop(s: Sys, n: nat) {
    && s.num == n + 1 && s.reg.id == n && !s.waiting && InRange(s.sts) && Underway(s) && Below(s.served, n + 1)
    && (s.busy.Some? ==>
          s.busy.value.id <= n && (s.busy.value.id % 2 == s.sts.par || s.busy.value.id % 2 == n % 2))
  }

  lemma {:induction false} FirmwareKeepsSecondNoop(s: Sys, n: nat, es: seq<Event>)
    requires SecondNoop(s, n) && FirmwareEvents(es)
    ensures SecondNoop(Run(s, es), n)
    decreases |es|
  {
    if es != [] { FirmwareKeepsSecondNoop(s, n, es[..|es| - 1]); }
  }

  lemma {:induction false} NoneSince(served: seq<nat>, base: nat)
    requires Below(served, base)
    ensures Since(served, base) == []
    decreases |served|
  {
    if served != [] { NoneSince(served[..|served| - 1], base); }
  }

  lemma {:induction false} FirmwareKeepsHost(s: Sys, es: seq<Event>)
    requires InRange(s.sts) && FirmwareEvents(es) && Below(s.served, s.num) && s.reg.id < s.num
    requires Underway(s) && (s.busy.Some? ==> s.busy.value.id < s.num)
    ensures var s' := Run(s, es);
            && s'.num == s.num && s'.reg == s.reg && s'.waiting == s.waiting && InRange(s'.sts) && Underway(s')
            && Below(s'.served, s.num) && (s'.busy.Some? ==> s'.busy.value.id < s.num)
    decreases |es|
  {
    if es != [] { FirmwareKeepsHost(s, es[..|es| - 1]); }
  }

  /** The firmware has seen no command the host has not sent, whatever parity it shows. */
  predicate Possible(s: Sys) {
    && InRange(s.sts) && Underway(s) && !s.waiting && Below(s.served, s.num)
    && (s.busy.Some? ==> s.busy.value.id < s.num)
  }

  /** aeon_ipc_sync_parity up to its second write: `es` is what the firmware does in the 20 ms between the two. */
  function TwoNoops(s: Sys, es: seq<Event>): Sys { Write(Run(Write(s, NOOP, 0), es), NOOP, 0) }

  /**
   From any parity the firmware shows and any command number: the ends are in step whenever the sync loop can
   stop, if and only if no late command is under way when the second NOOP is written.
   */
  lemma SyncGetsInStep(s: Sys, es: seq<Event>)
    requires Possible(s) && FirmwareEvents(es)
    ensures (forall es' | FirmwareEvents(es') ::
               var s' := Run(TwoNoops(s, es), es'); s'.num % 2 != s'.sts.par ==> Inv(s', s'.num))
            <==> !Late(Run(Write(s, NOOP, 0), es))
  {
    hide *;
    Written(s);
    var s1 := Write(s, NOOP, 0);
    FirmwareKeepsHost(s1, es);
    var s2 := Run(s1, es);
    var s3 := TwoNoops(s, es);
    assert s3 == Write(s2, NOOP, 0) by { SecondWrite(s, es); }
    if Late(s2) {
      LateNoopShows(s2);
      var s' := Run(s3, []);
    } else {
      ThenNoop(s2);
      forall es' | FirmwareEvents(es')
        ensures var s' := Run(s3, es'); s'.num % 2 != s'.sts.par ==> Inv(s', s'.num)
      {
        FirmwareKeepsSecondNoop(s3, s2.num, es');
        NoopShows(Run(s3, es'), s2.num);
      }
    }
  }

  /** From any start, through the sync, to any later run: every command sent after it is serviced exactly once. */
  lemma AfterSyncEachServicedOnce(s: Sys, es: seq<Event>, es': seq<Event>, run: seq<Event>)
    requires Possible(s) && FirmwareEvents(es) && FirmwareEvents(es') && !Late(Run(Write(s, NOOP, 0), es))
    requires var s1 := Run(TwoNoops(s, es), es'); s1.num % 2 != s1.sts.par && s1.sts.status != ERROR
    requires forall i :: 0 <= i < |run| ==> run[i].Finish? ==> run[i].ok
    ensures var s1 := Run(TwoNoops(s, es), es');
            var s2 := Run(s1, run);
            !s2.waiting ==> s1.num <= s2.num && Since(s2.served, s1.num) == Numbers(s1.num, s2.num)
  {
    SyncGetsInStep(s, es);
    var s1 := Run(TwoNoops(s, es), es');
    EachServicedOnce(s1, s1.num, run);
  }

  lemma SecondWrite(s: Sys, es: seq<Event>)
    ensures TwoNoops(s, es) == Write(Run(Write(s, NOOP, 0), es), NOOP, 0)
  {}

  lemma Written(s: Sys)
    requires Possible(s)
    ensures var s1 := Write(s, NOOP, 0);
            && InRange(s1.sts) && Below(s1.served, s1.num) && s1.reg.id == s1.num - 1 && !s1.waiting
            && Underway(s1) && (s1.busy.Some? ==> s1.busy.value.id < s1.num)
  {}

  lemma ThenNoop(s: Sys)
    requires Possible(s) && !Late(s)
    ensures SecondNoop(Write(s, NOOP, 0), s.num)
  {}

  /** With a late command under way the parity of the second NOOP shows at once, and will change again. */
  lemma LateNoopShows(s: Sys)
    requires InRange(s.sts) && Late(s)
    ensures FirmwareEvents([]) && var s' := Run(Write(s, NOOP, 0), []); s'.num % 2 != s'.sts.par && !Inv(s', s'.num)
  {}

  lemma NoopShows(s: Sys, n: nat)
    requires SecondNoop(s, n)
    ensures s.num % 2 != s.sts.par ==> Inv(s, s.num)
  {
    NoneSince(s.served, n + 1);
  }

  // ---------------------------------------------------------------- where it can go wrong

  /**
   The early stop on ERROR: command 2 fails, command 3 is not seen yet when the host polls, and the ERROR of
   command 2 ends its wait; command 4 then has the parity the firmware shows, and neither is ever serviced.
   */
  lemma StaleErrorLosesCommands()
    ensures var s0 := Sys(2, Cmd(1, NOOP, 0), Sts(1, 0, 0, SUCCESS), None, [], false);
            var s1 := Next(Next(Next(Next(s0, Send(1, 2)), Receive(false)), Finish(false, 0)), Poll);
            var s2 := Next(Next(s1, Send(1, 2)), Poll);
            var s3 := Next(Next(s2, Send(1, 2)), Poll);
            && Inv(s0, 2) && StaleError(Next(s1, Send(1, 2)))
            && !s3.waiting && s3.num == 5 && s3.served == [2] && Settled(s3)
  {
    var s0 := Sys(2, Cmd(1, NOOP, 0), Sts(1, 0, 0, SUCCESS), None, [], false);
    assert Ready(s0, 2) by { assert Since([], 2) == Numbers(2, 2); }
  }

  /**
   A first NOOP still under way when the second is written: the second already shows its parity, so the sync
   ends at once; the next command has the parity of the first NOOP, and is answered by it.
   */
  lemma LateNoopFoolsSync()
    ensures var s0 := Sys(0, Cmd(7, NOOP, 0), Sts(1, 0, 0, SUCCESS), None, [], false);
            var s1 := Next(Write(s0, NOOP, 0), Receive(false));
            var s2 := Write(s1, NOOP, 0);
            var s3 := Next(Next(Next(s2, Send(1, 2)), Finish(true, 0)), Poll);
            && Late(s1) && s2.num % 2 != s2.sts.par
            && !s3.waiting && s3.sts.status == SUCCESS && s3.num == 3 && s3.served == [0] && Settled(s3)
  {
    assert [] + [0] == [0];
  }
}
