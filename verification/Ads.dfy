/** The touch digitizer behind the SPI master: a bit-serial protocol hidden inside word
    transfers of 1 to 16 bits. */
module Ads {
  import opened AddressMap
  import opened Bits

  type Half = w: Word | |w| == 16 witness seq(16, _ => false)

  /** The analogue side, held still during the runs below. */
  datatype Pen = Pen(down: bool, x: Half, y: Half)

  // --------------------------------------------------------- the bit-serial automaton

  /** Command bits received so far (newest first), the register being sent, and a finished
      conversion waiting for the next idle clock. */
  datatype Automaton = Automaton(command: Word, out: Half, pending: Option<Half>)

  predicate Proper(a: Automaton) { |a.command| <= 7 }

  const BATTERY: Half := Below(Ones(16), 12)   // 0x0fff

  /** (command & 0x70) >> 4. */
  function Channel(command: Word): nat
    requires |command| == 8
  {
    Number(command[4..7])
  }

  function Conversion(pen: Pen, command: Word): (r: Half)
    requires |command| == 8
  {
    match Channel(command)
    case 1 => if pen.down then pen.y else Zero(16)
    case 5 => if pen.down then pen.x else Zero(16)
    case 2 => BATTERY
    case _ => Zero(16)
  }

  /** One clock: the top output bit leaves, one input bit arrives.  Outside a command a set bit
      starts one and a waiting conversion is loaded; the eighth bit completes the command. */
  function Clock(a: Automaton, pen: Pen, bit: bool): (b: Automaton)
    requires Proper(a)
    ensures Proper(b)
  {
    if a.command == [] then
      Automaton(if bit then [true] else [], if a.pending.Some? then a.pending.value else Shl(a.out, 1), None)
    else if |a.command| == 7 then
      Automaton([], Shl(a.out, 1), Some(Shl(Conversion(pen, [bit] + a.command), 4)))
    else
      Automaton([bit] + a.command, Shl(a.out, 1), a.pending)
  }

  /** What a stream of bits leads to: final state, bits sent, commands decoded. */
  datatype Trace = Trace(state: Automaton, sent: seq<bool>, decoded: seq<Word>)

  function Extend(t: Trace, pen: Pen, bit: bool): (u: Trace)
    requires Proper(t.state)
    ensures Proper(u.state)
  {
    Trace(Clock(t.state, pen, bit), t.sent + [t.state.out[15]],
          if |t.state.command| == 7 then t.decoded + [[bit] + t.state.command] else t.decoded)
  }

  function Run(a: Automaton, pen: Pen, bits: seq<bool>): (t: Trace)
    requires Proper(a)
    ensures Proper(t.state) && |t.sent| == |bits|
  {
    if bits == [] then Trace(a, [], [])
    else
      Extend(Run(a, pen, bits[..|bits| - 1]), pen, bits[|bits| - 1])
  }

  lemma {:induction false} RunJoin(a: Automaton, pen: Pen, s: seq<bool>, t: seq<bool>)
    requires Proper(a)
    ensures var r := Run(a, pen, s); var q := Run(r.state, pen, t);
            Run(a, pen, s + t) == Trace(q.state, r.sent + q.sent, r.decoded + q.decoded)
  {
    if t == [] {
      assert s + t == s;
    } else {
      assert (s + t)[..|s + t| - 1] == s + t[..|t| - 1];
      RunJoin(a, pen, s, t[..|t| - 1]);
    }
  }

  // -------------------------------------------------------------------- transfers

  datatype Transfer = Transfer(data: Half, bits: nat)

  predicate Lengths(ts: seq<Transfer>) { forall i :: 0 <= i < |ts| ==> 1 <= ts[i].bits <= 16 }

  /** The low n bits of a word in the order they go over the wire. */
  function MsbFirst(data: Word, n: nat): (s: seq<bool>)
    requires n <= |data|
    ensures |s| == n
    ensures forall i :: 0 <= i < n ==> s[i] == data[n - 1 - i]
  {
    seq(n, i requires 0 <= i < n => data[n - 1 - i])
  }

  function Stream(ts: seq<Transfer>): seq<bool>
    requires Lengths(ts)
  {
    if ts == [] then [] else Stream(ts[..|ts| - 1]) + MsbFirst(ts[|ts| - 1].data, ts[|ts| - 1].bits)
  }

  /** A session of transfers, each run from where the last one left the digitizer. */
  function Session(a: Automaton, pen: Pen, ts: seq<Transfer>): (t: Trace)
    requires Proper(a) && Lengths(ts)
    ensures Proper(t.state)
  {
    if ts == [] then Trace(a, [], [])
    else
      var t := Session(a, pen, ts[..|ts| - 1]);
      var r := Run(t.state, pen, MsbFirst(ts[|ts| - 1].data, ts[|ts| - 1].bits));
      Trace(r.state, t.sent + r.sent, t.decoded + r.decoded)
  }

  lemma {:induction false} SessionIsStream(a: Automaton, pen: Pen, ts: seq<Transfer>)
    requires Proper(a) && Lengths(ts)
    ensures Session(a, pen, ts) == Run(a, pen, Stream(ts))
  {
    if ts != [] {
      var last := ts[|ts| - 1];
      SessionIsStream(a, pen, ts[..|ts| - 1]);
      RunJoin(a, pen, Stream(ts[..|ts| - 1]), MsbFirst(last.data, last.bits));
    }
  }

  /** However a bit stream is cut into transfers, the bits sent, the commands decoded and the
      final state are the same. */
  lemma SplitIndependence(a: Automaton, pen: Pen, ts: seq<Transfer>, us: seq<Transfer>)
    requires Proper(a) && Lengths(ts) && Lengths(us) && Stream(ts) == Stream(us)
    ensures Session(a, pen, ts) == Session(a, pen, us)
  {
    SessionIsStream(a, pen, ts);
    SessionIsStream(a, pen, us);
  }

  // ------------------------------------------------------------- the converter's timing

  lemma {:induction false} Idle(a: Automaton, pen: Pen, n: nat)
    requires a.command == [] && a.pending.None? && n <= 16
    ensures var t := Run(a, pen, Zero(n));
            && t.state == Automaton([], Shl(a.out, n), None) && t.decoded == []
            && t.sent == MsbFirst(a.out, 16)[..n]
  {
    if n == 0 {
      assert Shl(a.out, 0) == a.out;
    } else {
      Idle(a, pen, n - 1);
      assert Zero(n)[..n - 1] == Zero(n - 1);
      assert Shl(Shl(a.out, n - 1), 1) == Shl(a.out, n);
    }
  }

  /** A command of which exactly these bits have arrived, the start bit first. */
  ghost predicate Received(t: Trace, bits: seq<bool>) {
    && t.decoded == [] && t.state.pending.None? && |t.state.command| == |bits|
    && forall i :: 0 <= i < |bits| ==> t.state.command[i] == bits[|bits| - 1 - i]
  }

  lemma ReceiveNext(t: Trace, pen: Pen, bits: seq<bool>, bit: bool)
    requires 1 <= |bits| < 7 && Received(t, bits)
    ensures Received(Extend(t, pen, bit), bits + [bit])
  {}

  lemma {:induction false} Receiving(a: Automaton, pen: Pen, bits: seq<bool>)
    requires a.command == [] && 1 <= |bits| <= 7 && bits[0]
    ensures Received(Run(a, pen, bits), bits)
  {
    var before, last := bits[..|bits| - 1], bits[|bits| - 1];
    assert bits == before + [last];
    if |bits| == 1 {
      assert Run(a, pen, before) == Trace(a, [], []);
    } else {
      Receiving(a, pen, before);
      ReceiveNext(Run(a, pen, before), pen, before, last);
    }
  }

  lemma Loaded(a: Automaton, pen: Pen)
    requires a.command == [] && a.pending.Some?
    ensures var t := Run(a, pen, Zero(1));
            t.state == Automaton([], a.pending.value, None) && t.decoded == []
  {
    assert Zero(1)[..0] == [];
  }

  lemma Decoded(a: Automaton, pen: Pen, command: Word)
    requires a.command == [] && |command| == 8 && command[7]
    ensures var t := Run(a, pen, MsbFirst(command, 8));
            && t.decoded == [command] && t.state.command == []
            && t.state.pending == Some(Shl(Conversion(pen, command), 4))
  {
    var bits := MsbFirst(command, 8);
    Receiving(a, pen, bits[..7]);
    assert bits[..|bits| - 1] == bits[..7];
    assert [bits[7]] + Run(a, pen, bits[..7]).state.command == command;
  }

  lemma LastPart(r: seq<bool>, g: seq<bool>, z: seq<bool>)
    requires |r| == 8 && |g| == 1
    ensures (r + (g + z))[9..] == z
  {}

  /** A command of eight bits behind a start bit is decoded as it was sent; the clock after it
      is a gap, and the clocks that follow deliver the conversion, most significant bit first
      and four zeros behind its twelve bits. */
  lemma CommandAnswered(a: Automaton, pen: Pen, command: Word, n: nat)
    requires a.command == [] && |command| == 8 && command[7] && n <= 16
    ensures var t := Run(a, pen, MsbFirst(command, 8) + (Zero(1) + Zero(n)));
            t.decoded == [command] && t.sent[9..] == MsbFirst(Shl(Conversion(pen, command), 4), 16)[..n]
  {
    var r := Run(a, pen, MsbFirst(command, 8));
    var g := Run(r.state, pen, Zero(1));
    var z := Run(g.state, pen, Zero(n));
    Decoded(a, pen, command);
    Loaded(r.state, pen);
    Idle(g.state, pen, n);
    RunJoin(r.state, pen, Zero(1), Zero(n));
    RunJoin(a, pen, MsbFirst(command, 8), Zero(1) + Zero(n));
    LastPart(r.sent, g.sent, z.sent);
  }

  // ------------------------------------------------------------------- the source

  /** SPIM_ENABLE and SPIM_EXCHANGE. */
  predicate Starts(control: Half) { control[9] && control[8] }

  /** (control & 0x000f) + 1. */
  function NumBits(control: Half): (n: nat)
    ensures 1 <= n <= 16
  {
    NumberBound(control[..4], 16);
    Number(control[..4]) + 1
  }

  /** The result word takes the top bit of the output register at its bottom. */
  function ShiftedIn(result: Half, out: Half): (r: Half)
    ensures r[0] == out[15] && forall i :: 1 <= i < 16 ==> r[i] == result[i - 1]
  {
    Or(Shl(result, 1), Shr(out, 15))
  }

  lemma ShiftedBits(was: Half, out: Half, k: nat)
    requires k < 16 && was == Below(was, k)
    ensures var now := ShiftedIn(was, out);
            MsbFirst(now, k + 1) == MsbFirst(was, k) + [out[15]] && now == Below(now, k + 1)
  {}

  /** What one turn of the transfer loop adds to the run so far. */
  lemma Progress(a: Automaton, pen: Pen, input: seq<bool>, k: nat, t: Automaton, was: Half, now: Half, log: seq<Word>)
    requires Proper(a) && Proper(t) && k < |input| && k < 16
    requires Run(a, pen, input[..k]) == Trace(t, MsbFirst(was, k), log) && was == Below(was, k)
    requires now == ShiftedIn(was, t.out)
    ensures Run(a, pen, input[..k + 1])
            == Trace(Clock(t, pen, input[k]), MsbFirst(now, k + 1),
                     log + if |t.command| == 7 then [[input[k]] + t.command] else [])
    ensures now == Below(now, k + 1)
  {
    ShiftedBits(was, t.out, k);
    var next := input[..k + 1];
    assert next[..k] == input[..k] && next[k] == input[k];
    assert Run(a, pen, next) == Extend(Run(a, pen, next[..k]), pen, next[k]);
  }

  class SpiMaster {
    var data: Half                // 0x800
    var control: Half             // 0x802
    var deselected: bool          // bit 5 of 0x431
    var spimPending: bool         // INT_LO_SPIM in 0x312
    var bitBufferIn: uint
    var bitBufferOut: Half
    var numBitsIn: int
    var pendingResult: Half
    var havePending: bool
    var commandBitsSeen: int
    ghost var decoded: seq<Word>

    ghost predicate Valid()
      reads this
    {
      0 <= commandBitsSeen == numBitsIn <= 7
    }

    /** The automaton state in the middle of a transfer with `left` bits to go. */
    ghost function State(left: nat): (a: Automaton)
      requires 0 <= commandBitsSeen <= 7 && left <= 16
      reads this
      ensures Proper(a)
    {
      Automaton(bitBufferIn[left..left + commandBitsSeen], bitBufferOut,
                if havePending then Some(pendingResult) else None)
    }

    constructor ()
      ensures Valid() && State(0) == Automaton([], Zero(16), None)
    {
      data, control, deselected, spimPending := Zero(16), Zero(16), true, false;
      bitBufferIn, bitBufferOut, numBitsIn := Zero(32), Zero(16), 0;
      pendingResult, havePending, commandBitsSeen, decoded := Zero(16), false, 0, [];
    }

    /** One turn of the transfer loop, at bit `left - 1` of the input buffer. */
    method Exchange(pen: Pen, left: nat, result: Half) returns (shifted: Half)
      requires 1 <= left <= 16 && 0 <= commandBitsSeen <= 7 && numBitsIn == commandBitsSeen + left
      modifies this`bitBufferOut, this`numBitsIn, this`pendingResult, this`havePending, this`commandBitsSeen,
               this`decoded
      ensures 0 <= commandBitsSeen <= 7 && numBitsIn == commandBitsSeen + left - 1
      ensures State(left - 1) == Clock(old(State(left)), pen, bitBufferIn[left - 1])
      ensures decoded == old(decoded) + if old(commandBitsSeen) == 7
                                        then [[bitBufferIn[left - 1]] + old(State(left)).command] else []
      ensures shifted == ShiftedIn(result, old(bitBufferOut))
    {
      shifted := ShiftedIn(result, bitBufferOut);
      assert bitBufferIn[left - 1..left + commandBitsSeen]
             == [bitBufferIn[left - 1]] + bitBufferIn[left..left + commandBitsSeen];
      bitBufferOut := Shl(bitBufferOut, 1);
      if commandBitsSeen == 0 {
        Await(left);
      } else {
        Collect(pen, left);
      }
    }

    /** Outside a command: a set bit starts one, and a waiting conversion is loaded. */
    method Await(left: nat)
      requires 1 <= left <= 16 && commandBitsSeen == 0 && numBitsIn == left
      modifies this`bitBufferOut, this`numBitsIn, this`havePending, this`commandBitsSeen
      ensures 0 <= commandBitsSeen <= 7 && numBitsIn == commandBitsSeen + left - 1
      ensures State(left - 1)
              == Automaton(if bitBufferIn[left - 1] then [true] else [],
                           if old(havePending) then pendingResult else old(bitBufferOut), None)
    {
      if bitBufferIn[left - 1] {
        commandBitsSeen := commandBitsSeen + 1;
      } else {
        numBitsIn := numBitsIn - 1;
      }
      if havePending {
        havePending, bitBufferOut := false, pendingResult;
      }
    }

    /** Inside a command: one bit more, and the eighth completes it. */
    method Collect(pen: Pen, left: nat)
      requires 1 <= left <= 16 && 1 <= commandBitsSeen <= 7 && numBitsIn == commandBitsSeen + left
      modifies this`numBitsIn, this`pendingResult, this`havePending, this`commandBitsSeen, this`decoded
      ensures 0 <= commandBitsSeen <= 7 && numBitsIn == commandBitsSeen + left - 1
      ensures var command := bitBufferIn[left - 1..left + old(commandBitsSeen)];
              if old(commandBitsSeen) == 7 then
                && State(left - 1) == Automaton([], bitBufferOut, Some(Shl(Conversion(pen, command), 4)))
                && decoded == old(decoded) + [command]
              else && State(left - 1) == Automaton(command, bitBufferOut, old(State(left)).pending)
                   && decoded == old(decoded)
    {
      commandBitsSeen := commandBitsSeen + 1;
      if commandBitsSeen == 8 {
        numBitsIn, commandBitsSeen := numBitsIn - 8, 0;
        var command := Shr(bitBufferIn, numBitsIn)[..8];
        assert command == bitBufferIn[left - 1..left + 7];
        decoded := decoded + [command];
        pendingResult, havePending := Shl(Conversion(pen, command), 4), true;
      }
    }

    /** The transfer with `left` of its bits still to go is where the automaton is after the
        others, and the result holds the bits sent. */
    ghost predicate Running(before: Automaton, pen: Pen, input: seq<bool>, left: nat, result: Half, log: seq<Word>)
      requires Proper(before) && left <= |input| <= 16
      reads this
    {
      && 0 <= commandBitsSeen <= 7 && numBitsIn == commandBitsSeen + left
      && (forall i :: 0 <= i < |input| ==> bitBufferIn[i] == input[|input| - 1 - i])
      && result == Below(result, |input| - left)
      && var t := Run(before, pen, input[..|input| - left]);
         t.state == State(left) && t.sent == MsbFirst(result, |input| - left) && decoded == log + t.decoded
    }

    method Turn(pen: Pen, left: nat, result: Half, ghost before: Automaton, ghost input: seq<bool>,
                ghost log: seq<Word>)
      returns (shifted: Half)
      requires Proper(before) && 1 <= left <= |input| <= 16 && Running(before, pen, input, left, result, log)
      modifies this`bitBufferOut, this`numBitsIn, this`pendingResult, this`havePending, this`commandBitsSeen,
               this`decoded
      ensures Running(before, pen, input, left - 1, shifted, log)
    {
      ghost var k, state := |input| - left, State(left);
      ghost var latest := Run(before, pen, input[..k]).decoded;
      shifted := Exchange(pen, left, result);
      Progress(before, pen, input, k, state, result, shifted, latest);
    }

    /** The transfer itself, for a selected digitizer. */
    method Transfer(pen: Pen, numBits: nat)
      requires Valid() && 1 <= numBits <= 16
      modifies this`data, this`bitBufferIn, this`bitBufferOut, this`numBitsIn, this`pendingResult, this`havePending,
               this`commandBitsSeen, this`decoded
      ensures Valid()
      ensures var t := Run(old(State(0)), pen, MsbFirst(old(data), numBits));
              && State(0) == t.state && decoded == old(decoded) + t.decoded
              && MsbFirst(data, numBits) == t.sent && data == Below(data, numBits)
    {
      ghost var before, input, log := State(0), MsbFirst(data, numBits), decoded;
      TakeIn(numBits);
      assert input[..0] == [];
      var result := Turns(pen, numBits, before, input, log);
      assert input[..numBits] == input;
      data := Below(result, numBits);
      assert data == result;
    }

    /** The transfer loop. */
    method Turns(pen: Pen, numBits: nat, ghost before: Automaton, ghost input: seq<bool>, ghost log: seq<Word>)
      returns (result: Half)
      requires Proper(before) && numBits == |input| <= 16 && Running(before, pen, input, numBits, Zero(16), log)
      modifies this`bitBufferOut, this`numBitsIn, this`pendingResult, this`havePending, this`commandBitsSeen,
               this`decoded
      ensures Running(before, pen, input, 0, result, log)
    {
      result := Zero(16);
      var left := numBitsIn - commandBitsSeen;   // mask == 1 << (left - 1)
      while left > 0
        invariant 0 <= left <= numBits && Running(before, pen, input, left, result, log)
      {
        result := Turn(pen, left, result, before, input, log);
        left := left - 1;
      }
    }

    /** The transfer's bits enter below those of an unfinished command. */
    method TakeIn(numBits: nat)
      requires Valid() && 1 <= numBits <= 16
      modifies this`bitBufferIn, this`numBitsIn
      ensures numBitsIn == commandBitsSeen + numBits && State(numBits) == old(State(0))
      ensures forall i :: 0 <= i < numBits ==> bitBufferIn[i] == data[i]
    {
      bitBufferIn := Or(Above(Shl(bitBufferIn, numBits), numBits), Below(data + Zero(16), numBits));
      numBitsIn := numBitsIn + numBits;
      assert bitBufferIn[numBits..numBits + commandBitsSeen] == old(bitBufferIn)[..commandBitsSeen];
    }

    /** palmHwLoadState's part: both counters are clamped, each by itself. */
    method LoadState(buffer: uint, out: Half, bitsIn: int, pending: Half, have: bool, seen: int)
      modifies this`bitBufferIn, this`bitBufferOut, this`numBitsIn, this`pendingResult, this`havePending,
               this`commandBitsSeen
      ensures Valid() <==> (bitsIn <= 0 && seen <= 0) || 1 <= bitsIn == seen <= 7
      ensures Valid() ==> State(0) == Automaton(buffer[..commandBitsSeen], out, if have then Some(pending) else None)
      ensures (forall n :: 1 <= n <= 16 ==> ShiftInRange(n)) <==> 0 <= numBitsIn - commandBitsSeen <= 16
    {
      bitBufferIn, bitBufferOut, pendingResult, havePending := buffer, out, pending, have;
      numBitsIn := if bitsIn < 0 then 0 else if bitsIn > 31 then 31 else bitsIn;
      commandBitsSeen := if seen < 0 then 0 else if seen > 8 then 8 else seen;
      assert ShiftInRange(1) && ShiftInRange(16) <==> 0 <= numBitsIn - commandBitsSeen <= 16;
    }

    /** The mask a transfer of n bits starts with is a shift of a 32-bit word by less than 32. */
    predicate ShiftInRange(n: nat)
      reads this`numBitsIn, this`commandBitsSeen
    {
      0 <= numBitsIn + n - commandBitsSeen - 1 < 32
    }

    /** When the master is enabled and asked to exchange, a selected digitizer takes the
        transfer and an unselected one leaves the data register alone. */
    method CompleteSpiExchange(pen: Pen)
      requires Valid()
      modifies this
      ensures Valid() && deselected == old(deselected)
      ensures !Starts(old(control)) ==> (control, spimPending) == old((control, spimPending))
      ensures Starts(old(control)) ==>
                control == old(control)[8 := false][7 := true] && spimPending == (old(spimPending) || old(control)[6])
      ensures !Starts(old(control)) || deselected ==> (data, decoded, State(0)) == old((data, decoded, State(0)))
      ensures Starts(old(control)) && !deselected ==>
                var n := NumBits(old(control));
                var t := Run(old(State(0)), pen, MsbFirst(old(data), n));
                && State(0) == t.state && decoded == old(decoded) + t.decoded
                && MsbFirst(data, n) == t.sent && data == Below(data, n)
    {
      if !Starts(control) { return; }
      if !deselected {
        Transfer(pen, NumBits(control));
      }
      control := control[7 := true];
      control := control[8 := false];
      if control[6] {
        spimPending := true;
      }
    }
  }
}
