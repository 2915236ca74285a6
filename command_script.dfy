/** The command-script interpreter (send_command_sequence) and the two constant scripts.
    A script entry is a uint16_t; an entry holds an opcode, a packed flag byte (low seven bits:
    argument count, bit 0x80: a delay byte follows), the arguments and the optional delay byte.
    An opcode of 0 ends the script. */
module CommandScript {
  import opened Config
  import opened Spi

  /** write_to_display takes a uint8_t: only the low byte of an entry goes on the wire. */
  function Low8(x: bv16): bv8 {
    (x & 0xFF) as bv8
  }

  function Lows(s: seq<bv16>): (r: seq<bv8>) {
    seq(|s|, k requires 0 <= k < |s| => Low8(s[k]))
  }

  /** The low seven bits of a flag entry: the number of arguments. */
  function ArgCount(flags: bv16): nat {
    (flags & 0x7F) as nat
  }

  /** Bit 0x80 of a flag entry: a delay byte follows the arguments. */
  function HasDelay(flags: bv16): bool {
    flags & 0x80 != 0
  }

  /** A stored delay of 255 stands for 500 ms. */
  function DelayMs(v: bv16): nat {
    if v == 255 then 500 else v as nat
  }

  /** Where the interpreter is inside one entry. */
  datatype Phase = AtOpcode | AtFlags | InArgs(remaining: nat, hasDelay: bool) | AtDelay

  /** How the interpreter stops: on the 0 opcode at index at, or by reading index at, which is
      past the end of the array (undefined behaviour in the source). */
  datatype Halt = Terminated(at: nat) | ReadPastEnd(at: nat)

  /** What a script asks for when every write is delivered: the events in order and the halt. */
  datatype Requests = Requests(events: seq<Event>, halt: Halt)

  function Then(e: Event, r: Requests): Requests {
    Requests([e] + r.events, r.halt)
  }

  function Append(evs: seq<Event>, r: Requests): Requests {
    Requests(evs + r.events, r.halt)
  }

  /** The phase after the argument loop. */
  function AfterArgs(hasDelay: bool): Phase {
    if hasDelay then AtDelay else AtOpcode
  }

  function Rank(p: Phase): nat {
    match p
    case InArgs(_, _) => 2
    case AtDelay => 1
    case _ => 0
  }

  /** The interpreter, one array read at a time, from index i in the given phase. */
  function Run(cmds: seq<bv16>, i: nat, phase: Phase): (r: Requests)
    requires i <= |cmds|
    decreases |cmds| - i, Rank(phase)
  {
    match phase
    case AtOpcode =>
      if i == |cmds| then Requests([], ReadPastEnd(i))
      else if cmds[i] == 0 then Requests([], Terminated(i))
      else Then(Write(false, [Low8(cmds[i])]), Run(cmds, i + 1, AtFlags))
    case AtFlags =>
      if i == |cmds| then Requests([], ReadPastEnd(i))
      else Run(cmds, i + 1, InArgs(ArgCount(cmds[i]), HasDelay(cmds[i])))
    case InArgs(n, d) =>
      if n == 0 then Run(cmds, i, AfterArgs(d))
      else if i == |cmds| then Requests([], ReadPastEnd(i))
      else Then(Write(true, [Low8(cmds[i])]), Run(cmds, i + 1, InArgs(n - 1, d)))
    case AtDelay =>
      if i == |cmds| then Requests([], ReadPastEnd(i))
      else Then(Delay(DelayMs(cmds[i])), Run(cmds, i + 1, AtOpcode))
  }

  /** A decoded command: opcode, argument bytes and the delay it asks for, if any. */
  datatype Command = Command(opcode: bv8, args: seq<bv8>, delay: Option<nat>)

  /** One data write per argument byte, in order. */
  function DataWrites(args: seq<bv8>): seq<Event> {
    if args == [] then [] else [Write(true, [args[0]])] + DataWrites(args[1..])
  }

  /** The events one command stands for. */
  function Requested(c: Command): seq<Event> {
    [Write(false, [c.opcode])] + DataWrites(c.args)
      + (match c.delay case Some(ms) => [Delay(ms)] case None => [])
  }

  function RequestedAll(cs: seq<Command>): seq<Event> {
    if cs == [] then [] else Requested(cs[0]) + RequestedAll(cs[1..])
  }

  /** The command whose opcode is at index i and the index just after it, if the whole
      command lies inside the array. */
  function CommandAt(cmds: seq<bv16>, i: nat): (r: Option<(Command, nat)>)
    requires i < |cmds|
    ensures r.Some? ==> i < r.value.1 <= |cmds|
  {
    if i + 1 == |cmds| then None
    else
      var n := ArgCount(cmds[i + 1]);
      var d := HasDelay(cmds[i + 1]);
      var argsEnd := i + 2 + n;
      var next := if d then argsEnd + 1 else argsEnd;
      if next > |cmds| then None
      else Some((Command(Low8(cmds[i]), Lows(cmds[i + 2..argsEnd]),
                         if d then Some(DelayMs(cmds[argsEnd])) else None), next))
  }

  /** A well-formed script from some index on: its commands and the index of its terminator. */
  datatype Decoded = Decoded(commands: seq<Command>, end: nat)

  /** The commands of a well-formed script from index i on: None when some command runs off
      the end of the array or no terminator is found. */
  function Decode(cmds: seq<bv16>, i: nat): Option<Decoded>
    requires i <= |cmds|
    decreases |cmds| - i
  {
    if i == |cmds| then None
    else if cmds[i] == 0 then Some(Decoded([], i))
    else match CommandAt(cmds, i)
      case None => None
      case Some(p) =>
        match Decode(cmds, p.1)
        case None => None
        case Some(rest) => Some(Decoded([p.0] + rest.commands, rest.end))
  }

  /** The data writes are the argument bytes, in order, all sent with D/C high. */
  lemma {:induction false} DataWritesAt(args: seq<bv8>)
    ensures |DataWrites(args)| == |args|
    ensures forall k :: 0 <= k < |args| ==> DataWrites(args)[k] == Write(true, [args[k]])
  {
    if args != [] {
      DataWritesAt(args[1..]);
    }
  }

  /** One command stands for exactly one write with D/C low (the opcode), then one write with
      D/C high per argument, then a delay event exactly when it has a delay. */
  lemma RequestedShape(c: Command)
    ensures var r := Requested(c);
      && |r| == 1 + |c.args| + (if c.delay.Some? then 1 else 0)
      && r[0] == Write(false, [c.opcode])
      && (forall k :: 1 <= k <= |c.args| ==> r[k] == Write(true, [c.args[k - 1]]))
      && (c.delay.Some? ==> r[|r| - 1] == Delay(c.delay.value))
  {
    DataWritesAt(c.args);
  }

  lemma ThenAppend(e: Event, evs: seq<Event>, r: Requests)
    ensures Then(e, Append(evs, r)) == Append([e] + evs, r)
  {
    assert [e] + (evs + r.events) == [e] + evs + r.events;
  }

  lemma AppendAppend(a: seq<Event>, b: seq<Event>, r: Requests)
    ensures Append(a, Append(b, r)) == Append(a + b, r)
  {
    assert a + (b + r.events) == a + b + r.events;
  }

  lemma OpcodeStep(cmds: seq<bv16>, i: nat)
    requires i < |cmds| && cmds[i] != 0
    ensures Run(cmds, i, AtOpcode) == Then(Write(false, [Low8(cmds[i])]), Run(cmds, i + 1, AtFlags))
  {}

  lemma FlagsStep(cmds: seq<bv16>, i: nat)
    requires i < |cmds|
    ensures Run(cmds, i, AtFlags) == Run(cmds, i + 1, InArgs(ArgCount(cmds[i]), HasDelay(cmds[i])))
  {}

  lemma ArgStep(cmds: seq<bv16>, i: nat, n: nat, d: bool)
    requires i < |cmds| && n > 0
    ensures Run(cmds, i, InArgs(n, d)) == Then(Write(true, [Low8(cmds[i])]), Run(cmds, i + 1, InArgs(n - 1, d)))
  {}

  lemma DelayStep(cmds: seq<bv16>, i: nat)
    requires i < |cmds|
    ensures Run(cmds, i, AtDelay) == Then(Delay(DelayMs(cmds[i])), Run(cmds, i + 1, AtOpcode))
  {}

  /** The argument loop: with n argument entries inside the array, it writes their low bytes
      with D/C high and carries on after them. */
  lemma {:induction false} ArgsInside(cmds: seq<bv16>, i: nat, n: nat, d: bool)
    requires i + n <= |cmds|
    ensures Run(cmds, i, InArgs(n, d)) == Append(DataWrites(Lows(cmds[i..i + n])), Run(cmds, i + n, AfterArgs(d)))
    decreases n
  {
    if n > 0 {
      ArgsInside(cmds, i + 1, n - 1, d);
      ArgStep(cmds, i, n, d);
      var l := Lows(cmds[i..i + n]);
      assert l[0] == Low8(cmds[i]);
      assert l[1..] == Lows(cmds[i + 1..i + n]);
      ThenAppend(Write(true, [Low8(cmds[i])]), DataWrites(l[1..]), Run(cmds, i + n, AfterArgs(d)));
    } else {
      assert Lows(cmds[i..i]) == [];
      assert DataWrites([]) + Run(cmds, i, AfterArgs(d)).events == Run(cmds, i, AfterArgs(d)).events;
    }
  }

  /** The argument loop with argument entries missing: it reads past the end. */
  lemma {:induction false} ArgsOverrun(cmds: seq<bv16>, i: nat, n: nat, d: bool)
    requires i <= |cmds| < i + n
    ensures Run(cmds, i, InArgs(n, d)).halt == ReadPastEnd(|cmds|)
    decreases n
  {
    if i < |cmds| {
      ArgsOverrun(cmds, i + 1, n - 1, d);
    }
  }

  /** The opcode write and the argument loop of the command at i, when its arguments lie
      inside the array. */
  lemma OpcodeThenArgs(cmds: seq<bv16>, i: nat)
    requires i + 1 < |cmds| && cmds[i] != 0 && i + 2 + ArgCount(cmds[i + 1]) <= |cmds|
    ensures var n := ArgCount(cmds[i + 1]);
      Run(cmds, i, AtOpcode)
        == Append([Write(false, [Low8(cmds[i])])] + DataWrites(Lows(cmds[i + 2..i + 2 + n])),
                  Run(cmds, i + 2 + n, AfterArgs(HasDelay(cmds[i + 1]))))
  {
    var n, d := ArgCount(cmds[i + 1]), HasDelay(cmds[i + 1]);
    OpcodeStep(cmds, i);
    FlagsStep(cmds, i + 1);
    ArgsInside(cmds, i + 2, n, d);
    ThenAppend(Write(false, [Low8(cmds[i])]), DataWrites(Lows(cmds[i + 2..i + 2 + n])), Run(cmds, i + 2 + n, AfterArgs(d)));
  }

  /** The interpreter on one whole command: the command's events, then the interpreter again
      just after it. */
  lemma CommandStep(cmds: seq<bv16>, i: nat)
    requires i < |cmds| && cmds[i] != 0 && CommandAt(cmds, i).Some?
    ensures Run(cmds, i, AtOpcode) == Append(Requested(CommandAt(cmds, i).value.0), Run(cmds, CommandAt(cmds, i).value.1, AtOpcode))
  {
    var (c, next) := CommandAt(cmds, i).value;
    var n, d := ArgCount(cmds[i + 1]), HasDelay(cmds[i + 1]);
    var argsEnd := i + 2 + n;
    var opAndArgs := [Write(false, [Low8(cmds[i])])] + DataWrites(Lows(cmds[i + 2..argsEnd]));
    OpcodeThenArgs(cmds, i);
    assert c.args == Lows(cmds[i + 2..argsEnd]) && c.opcode == Low8(cmds[i]);
    if d {
      var pause := Delay(DelayMs(cmds[argsEnd]));
      assert next == argsEnd + 1 && c.delay == Some(DelayMs(cmds[argsEnd]));
      DelayStep(cmds, argsEnd);
      assert Requested(c) == opAndArgs + [pause];
      AppendAppend(opAndArgs, [pause], Run(cmds, next, AtOpcode));
    } else {
      assert next == argsEnd && c.delay == None;
      assert Requested(c) == opAndArgs + [];
      assert opAndArgs + [] == opAndArgs;
    }
  }

  /** A command running off the end of the array makes the interpreter read past the end. */
  lemma CommandOverrun(cmds: seq<bv16>, i: nat)
    requires i < |cmds| && cmds[i] != 0 && CommandAt(cmds, i).None?
    ensures Run(cmds, i, AtOpcode).halt.ReadPastEnd?
  {
    OpcodeStep(cmds, i);
    if i + 1 < |cmds| {
      var n, d := ArgCount(cmds[i + 1]), HasDelay(cmds[i + 1]);
      FlagsStep(cmds, i + 1);
      if i + 2 + n > |cmds| {
        ArgsOverrun(cmds, i + 2, n, d);
      } else {
        ArgsInside(cmds, i + 2, n, d);
        assert d && i + 2 + n == |cmds|;
      }
    }
  }

  /** A script decodes exactly when the interpreter stops on a terminator instead of reading
      past the end; then the interpreter asks for exactly the decoded commands' events and
      stops on the decoded terminator. */
  lemma {:induction false} DecodeMatchesRun(cmds: seq<bv16>, i: nat)
    requires i <= |cmds|
    ensures Decode(cmds, i).Some? <==> Run(cmds, i, AtOpcode).halt.Terminated?
    ensures Decode(cmds, i).Some? ==>
      Run(cmds, i, AtOpcode) == Requests(RequestedAll(Decode(cmds, i).value.commands), Terminated(Decode(cmds, i).value.end))
    decreases |cmds| - i
  {
    if i < |cmds| && cmds[i] != 0 {
      match CommandAt(cmds, i)
      case None =>
        CommandOverrun(cmds, i);
      case Some(p) =>
        CommandStep(cmds, i);
        DecodeMatchesRun(cmds, p.1);
        if Decode(cmds, p.1).Some? {
          var cs := [p.0] + Decode(cmds, p.1).value.commands;
          assert cs[0] == p.0 && cs[1..] == Decode(cmds, p.1).value.commands;
        }
    }
  }

  /** A script whose first entry is the terminator asks for nothing. */
  lemma EmptyScript(cmds: seq<bv16>)
    requires |cmds| > 0 && cmds[0] == 0
    ensures Run(cmds, 0, AtOpcode) == Requests([], Terminated(0))
    ensures Decode(cmds, 0) == Some(Decoded([], 0))
  {}

  /** {0x11, 0x80, 255, 0x00}: one command byte 0x11, no data bytes, a 500 ms delay, then
      the terminator at index 3. */
  lemma SleepOutScript()
    ensures Run([0x11, 0x80, 255, 0x00], 0, AtOpcode) == Requests([Write(false, [0x11]), Delay(500)], Terminated(3))
  {}

  /** st7789_init: software reset, sleep out, 16-bit colour mode, memory access control,
      gamma curve, 0xBA, inversion on, normal display mode, display on. */
  const InitScript: seq<bv16> := [
    0x01, 0x80, 150,
    0x11, 0x80, 255,
    0x3A, 0x81, 0x55, 10,
    0x36, 0x01, 0xA0,
    0x26, 0x01, 0x07,
    0xBA, 0x02, 0x08, 0x08,
    0x21, 0x80, 10,
    0x13, 0x80, 10,
    0x29, 0x80, 255,
    0x00
  ]

  /** The commands the initialisation script stands for. */
  const InitCommands: seq<Command> := [
    Command(0x01, [], Some(150)),
    Command(0x11, [], Some(500)),
    Command(0x3A, [0x55], Some(10)),
    Command(0x36, [0xA0], None),
    Command(0x26, [0x07], None),
    Command(0xBA, [0x08, 0x08], None),
    Command(0x21, [], Some(10)),
    Command(0x13, [], Some(10)),
    Command(0x29, [], Some(500))
  ]

  /** Flag entries used by the two scripts. */
  lemma FlagFacts()
    ensures ArgCount(0x80) == 0 && HasDelay(0x80)
    ensures ArgCount(0x81) == 1 && HasDelay(0x81)
    ensures ArgCount(0x01) == 1 && !HasDelay(0x01)
    ensures ArgCount(0x02) == 2 && !HasDelay(0x02)
    ensures ArgCount(0x04) == 4 && !HasDelay(0x04)
    ensures ArgCount(0x00) == 0 && !HasDelay(0x00)
  {}

  /** Decoding one command in front of an already decoded rest. */
  lemma DecodeStep(cmds: seq<bv16>, i: nat, c: Command, next: nat, rest: Decoded)
    requires i < |cmds| && cmds[i] != 0 && CommandAt(cmds, i) == Some((c, next))
    requires Decode(cmds, next) == Some(rest)
    ensures Decode(cmds, i) == Some(Decoded([c] + rest.commands, rest.end))
  {}

  /** A command in front of a rest that does not decode does not decode either. */
  lemma DecodeStepFails(cmds: seq<bv16>, i: nat, c: Command, next: nat)
    requires i < |cmds| && cmds[i] != 0 && CommandAt(cmds, i) == Some((c, next))
    requires Decode(cmds, next).None?
    ensures Decode(cmds, i).None?
  {}

  /** An array holding the entries of st7789_init, index by index. */
  predicate InitEntries(s: seq<bv16>) {
    |s| == 30 && s[0] == 0x1 && s[1] == 0x80 && s[2] == 0x96 && s[3] == 0x11 && s[4] == 0x80 && s[5] == 0xff && s[6] == 0x3a && s[7] == 0x81 && s[8] == 0x55 && s[9] == 0xa && s[10] == 0x36 && s[11] == 0x1 && s[12] == 0xa0 && s[13] == 0x26 && s[14] == 0x1 && s[15] == 0x7 && s[16] == 0xba && s[17] == 0x2 && s[18] == 0x8 && s[19] == 0x8 && s[20] == 0x21 && s[21] == 0x80 && s[22] == 0xa && s[23] == 0x13 && s[24] == 0x80 && s[25] == 0xa && s[26] == 0x29 && s[27] == 0x80 && s[28] == 0xff && s[29] == 0x0
  }

  /** The commands of st7789_init, one entry group at a time, for any array holding the
      same entries at the same indices. */
  lemma InitEntry0(s: seq<bv16>)
    requires 3 <= |s| && s[0] == 0x1 && s[1] == 0x80 && s[2] == 0x96
    ensures CommandAt(s, 0) == Some((Command(0x1, [], Some(150)), 3))
  {
    FlagFacts();
    assert Low8(0x1) == 0x1;
    assert Lows(s[2..2]) == [];
    assert DelayMs(150) == 150;
  }

  lemma InitEntry1(s: seq<bv16>)
    requires 6 <= |s| && s[3] == 0x11 && s[4] == 0x80 && s[5] == 0xff
    ensures CommandAt(s, 3) == Some((Command(0x11, [], Some(500)), 6))
  {
    FlagFacts();
    assert Low8(0x11) == 0x11;
    assert Lows(s[5..5]) == [];
    assert DelayMs(255) == 500;
  }

  lemma InitEntry2(s: seq<bv16>)
    requires 10 <= |s| && s[6] == 0x3a && s[7] == 0x81 && s[8] == 0x55 && s[9] == 0xa
    ensures CommandAt(s, 6) == Some((Command(0x3a, [0x55], Some(10)), 10))
  {
    FlagFacts();
    assert Low8(0x3a) == 0x3a;
    assert s[8..9] == [0x55];
    assert Lows([0x55]) == [0x55];
    assert DelayMs(10) == 10;
  }

  lemma InitEntry3(s: seq<bv16>)
    requires 13 <= |s| && s[10] == 0x36 && s[11] == 0x1 && s[12] == 0xa0
    ensures CommandAt(s, 10) == Some((Command(0x36, [0xa0], None), 13))
  {
    FlagFacts();
    assert Low8(0x36) == 0x36;
    assert s[12..13] == [0xa0];
    assert Lows([0xa0]) == [0xa0];
  }

  lemma InitEntry4(s: seq<bv16>)
    requires 16 <= |s| && s[13] == 0x26 && s[14] == 0x1 && s[15] == 0x7
    ensures CommandAt(s, 13) == Some((Command(0x26, [0x7], None), 16))
  {
    FlagFacts();
    assert Low8(0x26) == 0x26;
    assert s[15..16] == [0x7];
    assert Lows([0x7]) == [0x7];
  }

  lemma InitEntry5(s: seq<bv16>)
    requires 20 <= |s| && s[16] == 0xba && s[17] == 0x2 && s[18] == 0x8 && s[19] == 0x8
    ensures CommandAt(s, 16) == Some((Command(0xba, [0x8, 0x8], None), 20))
  {
    FlagFacts();
    assert Low8(0xba) == 0xba;
    assert s[18..20] == [0x8, 0x8];
    assert Lows([0x8, 0x8]) == [0x8, 0x8];
  }

  lemma InitEntry6(s: seq<bv16>)
    requires 23 <= |s| && s[20] == 0x21 && s[21] == 0x80 && s[22] == 0xa
    ensures CommandAt(s, 20) == Some((Command(0x21, [], Some(10)), 23))
  {
    FlagFacts();
    assert Low8(0x21) == 0x21;
    assert Lows(s[22..22]) == [];
    assert DelayMs(10) == 10;
  }

  lemma InitEntry7(s: seq<bv16>)
    requires 26 <= |s| && s[23] == 0x13 && s[24] == 0x80 && s[25] == 0xa
    ensures CommandAt(s, 23) == Some((Command(0x13, [], Some(10)), 26))
  {
    FlagFacts();
    assert Low8(0x13) == 0x13;
    assert Lows(s[25..25]) == [];
    assert DelayMs(10) == 10;
  }

  lemma InitEntry8(s: seq<bv16>)
    requires 29 <= |s| && s[26] == 0x29 && s[27] == 0x80 && s[28] == 0xff
    ensures CommandAt(s, 26) == Some((Command(0x29, [], Some(500)), 29))
  {
    FlagFacts();
    assert Low8(0x29) == 0x29;
    assert Lows(s[28..28]) == [];
    assert DelayMs(255) == 500;
  }

  lemma InitDecodes(s: seq<bv16>)
    requires InitEntries(s)
    ensures Decode(s, 0) == Some(Decoded(InitCommands, 29))
  {
    var r := Decoded([], 29);
    InitEntry8(s);
    DecodeStep(s, 26, Command(0x29, [], Some(500)), 29, r);
    r := Decoded([Command(0x29, [], Some(500))] + r.commands, 29);
    InitEntry7(s);
    DecodeStep(s, 23, Command(0x13, [], Some(10)), 26, r);
    r := Decoded([Command(0x13, [], Some(10))] + r.commands, 29);
    InitEntry6(s);
    DecodeStep(s, 20, Command(0x21, [], Some(10)), 23, r);
    r := Decoded([Command(0x21, [], Some(10))] + r.commands, 29);
    InitEntry5(s);
    DecodeStep(s, 16, Command(0xba, [0x8, 0x8], None), 20, r);
    r := Decoded([Command(0xba, [0x8, 0x8], None)] + r.commands, 29);
    InitEntry4(s);
    DecodeStep(s, 13, Command(0x26, [0x7], None), 16, r);
    r := Decoded([Command(0x26, [0x7], None)] + r.commands, 29);
    InitEntry3(s);
    DecodeStep(s, 10, Command(0x36, [0xa0], None), 13, r);
    r := Decoded([Command(0x36, [0xa0], None)] + r.commands, 29);
    InitEntry2(s);
    DecodeStep(s, 6, Command(0x3a, [0x55], Some(10)), 10, r);
    r := Decoded([Command(0x3a, [0x55], Some(10))] + r.commands, 29);
    InitEntry1(s);
    DecodeStep(s, 3, Command(0x11, [], Some(500)), 6, r);
    r := Decoded([Command(0x11, [], Some(500))] + r.commands, 29);
    InitEntry0(s);
    DecodeStep(s, 0, Command(0x1, [], Some(150)), 3, r);
    r := Decoded([Command(0x1, [], Some(150))] + r.commands, 29);
    InitCommandsSpelled();
  }

  lemma InitCommandsSpelled()
    ensures [Command(0x1, [], Some(150))] + ([Command(0x11, [], Some(500))] + ([Command(0x3a, [0x55], Some(10))] + ([Command(0x36, [0xa0], None)] + ([Command(0x26, [0x7], None)] + ([Command(0xba, [0x8, 0x8], None)] + ([Command(0x21, [], Some(10))] + ([Command(0x13, [], Some(10))] + ([Command(0x29, [], Some(500))] + [])))))))) == InitCommands
  {}

  lemma InitRuns(s: seq<bv16>)
    requires InitEntries(s)
    ensures Run(s, 0, AtOpcode) == Requests(RequestedAll(InitCommands), Terminated(29))
  {
    InitDecodes(s);
    DecodeMatchesRun(s, 0);
  }

  /** The entries of the initialisation script, a few at a time. */
  lemma InitScriptLength()
    ensures |InitScript| == 30
  {}

  lemma InitScriptEntries0()
    ensures InitScript[0] == 0x1 && InitScript[1] == 0x80 && InitScript[2] == 0x96
  {}

  lemma InitScriptEntries3()
    ensures InitScript[3] == 0x11 && InitScript[4] == 0x80
  {}

  lemma InitScriptEntries5()
    ensures InitScript[5] == 0xff && InitScript[6] == 0x3a && InitScript[7] == 0x81 && InitScript[8] == 0x55 && InitScript[9] == 0xa
  {}

  lemma InitScriptEntries10()
    ensures InitScript[10] == 0x36 && InitScript[11] == 0x1 && InitScript[12] == 0xa0 && InitScript[13] == 0x26 && InitScript[14] == 0x1
  {}

  lemma InitScriptEntries15()
    ensures InitScript[15] == 0x7 && InitScript[16] == 0xba && InitScript[17] == 0x2 && InitScript[18] == 0x8 && InitScript[19] == 0x8
  {}

  lemma InitScriptEntries20()
    ensures InitScript[20] == 0x21 && InitScript[21] == 0x80 && InitScript[22] == 0xa && InitScript[23] == 0x13 && InitScript[24] == 0x80 && InitScript[25] == 0xa && InitScript[26] == 0x29 && InitScript[27] == 0x80 && InitScript[28] == 0xff && InitScript[29] == 0x0
  {}

  /** The initialisation script is well formed: it decodes into its nine commands, and the
      interpreter asks for exactly their events and stops on the final entry, never reading
      past the end. */
  lemma InitScriptWellFormed()
    ensures Decode(InitScript, 0) == Some(Decoded(InitCommands, |InitScript| - 1))
    ensures Run(InitScript, 0, AtOpcode) == Requests(RequestedAll(InitCommands), Terminated(|InitScript| - 1))
  {
    InitScriptLength();
    InitScriptEntries0();
    InitScriptEntries3();
    InitScriptEntries5();
    InitScriptEntries10();
    InitScriptEntries15();
    InitScriptEntries20();
    InitDecodes(InitScript);
    InitRuns(InitScript);
  }

  /** st7789_display_window as written: column address set, row address set, memory write,
      and a final 0. The 0 after 0x2C is read as 0x2C's flag entry, so no terminator is left. */
  const WindowScript: seq<bv16> := [
    0x2A, 4, 0, 0, 1, 63,
    0x2B, 4, 0, 0, 0, 239,
    0x2C,
    0x00
  ]

  /** The window script with the flag entry of 0x2C written out, so that the last 0 is a
      terminator. */
  const CorrectedWindowScript: seq<bv16> := [
    0x2A, 4, 0, 0, 1, 63,
    0x2B, 4, 0, 0, 0, 239,
    0x2C, 0x00,
    0x00
  ]

  /** The commands both window scripts stand for. */
  const WindowCommands: seq<Command> := [
    Command(0x2A, [0x00, 0x00, 0x01, 0x3F], None),
    Command(0x2B, [0x00, 0x00, 0x00, 0xEF], None),
    Command(0x2C, [], None)
  ]

  /** An array holding the entries of st7789_display_window, index by index. */
  predicate WindowEntries(s: seq<bv16>) {
    |s| == 14 && s[0] == 0x2a && s[1] == 0x4 && s[2] == 0x0 && s[3] == 0x0 && s[4] == 0x1 && s[5] == 0x3f && s[6] == 0x2b && s[7] == 0x4 && s[8] == 0x0 && s[9] == 0x0 && s[10] == 0x0 && s[11] == 0xef && s[12] == 0x2c && s[13] == 0x0
  }

  /** The same entries with a 0 flag entry after 0x2C, then the terminator. */
  predicate CorrectedWindowEntries(s: seq<bv16>) {
    |s| == 15 && s[0] == 0x2a && s[1] == 0x4 && s[2] == 0x0 && s[3] == 0x0 && s[4] == 0x1 && s[5] == 0x3f && s[6] == 0x2b && s[7] == 0x4 && s[8] == 0x0 && s[9] == 0x0 && s[10] == 0x0 && s[11] == 0xef && s[12] == 0x2c && s[13] == 0x0 && s[14] == 0x0
  }

  /** The commands of the window scripts, for any array holding the same entries at the
      same indices. */
  lemma WindowEntry0(s: seq<bv16>)
    requires 6 <= |s| && s[0] == 0x2a && s[1] == 0x4 && s[2] == 0x0 && s[3] == 0x0 && s[4] == 0x1 && s[5] == 0x3f
    ensures CommandAt(s, 0) == Some((Command(0x2a, [0x0, 0x0, 0x1, 0x3f], None), 6))
  {
    FlagFacts();
    assert Low8(0x2a) == 0x2a;
    assert s[2..6] == [0x0, 0x0, 0x1, 0x3f];
    assert Lows([0x0, 0x0, 0x1, 0x3f]) == [0x0, 0x0, 0x1, 0x3f];
  }

  lemma WindowEntry1(s: seq<bv16>)
    requires 12 <= |s| && s[6] == 0x2b && s[7] == 0x4 && s[8] == 0x0 && s[9] == 0x0 && s[10] == 0x0 && s[11] == 0xef
    ensures CommandAt(s, 6) == Some((Command(0x2b, [0x0, 0x0, 0x0, 0xef], None), 12))
  {
    FlagFacts();
    assert Low8(0x2b) == 0x2b;
    assert s[8..12] == [0x0, 0x0, 0x0, 0xef];
    assert Lows([0x0, 0x0, 0x0, 0xef]) == [0x0, 0x0, 0x0, 0xef];
  }

  lemma WindowEntry2(s: seq<bv16>)
    requires 14 <= |s| && s[12] == 0x2c && s[13] == 0x0
    ensures CommandAt(s, 12) == Some((Command(0x2c, [], None), 14))
  {
    FlagFacts();
    assert Low8(0x2c) == 0x2c;
    assert Lows(s[14..14]) == [];
  }

  lemma WindowCommandsSpelled()
    ensures [Command(0x2a, [0x0, 0x0, 0x1, 0x3f], None)] + ([Command(0x2b, [0x0, 0x0, 0x0, 0xef], None)] + ([Command(0x2c, [], None)] + [])) == WindowCommands
  {}

  lemma RequestedAllCons(c: Command, cs: seq<Command>)
    ensures RequestedAll([c] + cs) == Requested(c) + RequestedAll(cs)
  {
    assert ([c] + cs)[1..] == cs;
  }

  /** A whole command at i, then whatever the interpreter does just after it. */
  lemma RunCommandThen(s: seq<bv16>, i: nat, c: Command, next: nat, rest: Requests)
    requires i < |s| && s[i] != 0 && CommandAt(s, i) == Some((c, next)) && Run(s, next, AtOpcode) == rest
    ensures Run(s, i, AtOpcode) == Append(Requested(c), rest)
  {
    CommandStep(s, i);
  }

  lemma AppendCommand(c: Command, cs: seq<Command>, h: Halt)
    ensures Append(Requested(c), Requests(RequestedAll(cs), h)) == Requests(RequestedAll([c] + cs), h)
  {
    RequestedAllCons(c, cs);
  }

  /** Three whole commands ending exactly at the end of the array: their events, then a
      read past the end. */
  lemma RunThreeCommands(s: seq<bv16>, c0: Command, c1: Command, c2: Command)
    requires |s| == 14 && s[0] != 0 && s[6] != 0 && s[12] != 0
    requires CommandAt(s, 0) == Some((c0, 6)) && CommandAt(s, 6) == Some((c1, 12)) && CommandAt(s, 12) == Some((c2, 14))
    ensures Run(s, 0, AtOpcode) == Requests(RequestedAll([c0] + ([c1] + ([c2] + []))), ReadPastEnd(14))
  {
    var h := ReadPastEnd(14);
    assert Run(s, 14, AtOpcode) == Requests(RequestedAll([]), h);
    RunCommandThen(s, 12, c2, 14, Requests(RequestedAll([]), h));
    AppendCommand(c2, [], h);
    RunCommandThen(s, 6, c1, 12, Requests(RequestedAll([c2] + []), h));
    AppendCommand(c1, [c2] + [], h);
    RunCommandThen(s, 0, c0, 6, Requests(RequestedAll([c1] + ([c2] + [])), h));
    AppendCommand(c0, [c1] + ([c2] + []), h);
  }

  /** The window script as written: the interpreter sends the three commands and then reads
      index 14 of the 14-entry array; it does not decode. */
  lemma WindowReadsPastEnd(s: seq<bv16>)
    requires WindowEntries(s)
    ensures Decode(s, 0).None?
    ensures Run(s, 0, AtOpcode) == Requests(RequestedAll(WindowCommands), ReadPastEnd(14))
  {
    WindowEntry0(s);
    WindowEntry1(s);
    WindowEntry2(s);
    DecodeStepFails(s, 12, Command(0x2c, [], None), 14);
    DecodeStepFails(s, 6, Command(0x2b, [0x0, 0x0, 0x0, 0xef], None), 12);
    DecodeStepFails(s, 0, Command(0x2a, [0x0, 0x0, 0x1, 0x3f], None), 6);
    RunThreeCommands(s, Command(0x2a, [0x0, 0x0, 0x1, 0x3f], None), Command(0x2b, [0x0, 0x0, 0x0, 0xef], None), Command(0x2c, [], None));
    WindowCommandsSpelled();
  }

  lemma WindowScriptReadsPastEnd()
    ensures Decode(WindowScript, 0).None?
    ensures Run(WindowScript, 0, AtOpcode) == Requests(RequestedAll(WindowCommands), ReadPastEnd(|WindowScript|))
  {
    WindowReadsPastEnd(WindowScript);
  }

  lemma CorrectedWindowDecodes(s: seq<bv16>)
    requires CorrectedWindowEntries(s)
    ensures Decode(s, 0) == Some(Decoded(WindowCommands, 14))
  {
    var r := Decoded([], 14);
    WindowEntry2(s);
    DecodeStep(s, 12, Command(0x2c, [], None), 14, r);
    r := Decoded([Command(0x2c, [], None)] + r.commands, 14);
    WindowEntry1(s);
    DecodeStep(s, 6, Command(0x2b, [0x0, 0x0, 0x0, 0xef], None), 12, r);
    r := Decoded([Command(0x2b, [0x0, 0x0, 0x0, 0xef], None)] + r.commands, 14);
    WindowEntry0(s);
    DecodeStep(s, 0, Command(0x2a, [0x0, 0x0, 0x1, 0x3f], None), 6, r);
    WindowCommandsSpelled();
  }

  /** The corrected window script is well formed: the same three commands, the same events,
      and the interpreter stops on its final entry. */
  lemma CorrectedWindowScriptWellFormed()
    ensures Decode(CorrectedWindowScript, 0) == Some(Decoded(WindowCommands, |CorrectedWindowScript| - 1))
    ensures Run(CorrectedWindowScript, 0, AtOpcode) == Requests(RequestedAll(WindowCommands), Terminated(|CorrectedWindowScript| - 1))
  {
    CorrectedWindowDecodes(CorrectedWindowScript);
    DecodeMatchesRun(CorrectedWindowScript, 0);
  }

  /** A CASET/RASET argument list: start and end address, each sent high byte first. */
  function AddressRange(args: seq<bv8>): (r: (nat, nat))
    requires |args| == 4
    ensures r.0 < 0x1_0000 && r.1 < 0x1_0000
  {
    ((args[0] as nat) * 256 + args[1] as nat, (args[2] as nat) * 256 + args[3] as nat)
  }

  /** The window covers the whole panel: columns 0 to ScreenWidth - 1, rows 0 to
      ScreenHeight - 1, then a memory write with no arguments. */
  lemma WindowCoversScreen()
    ensures WindowCommands[0].opcode == 0x2A && AddressRange(WindowCommands[0].args) == (0, ScreenWidth - 1)
    ensures WindowCommands[1].opcode == 0x2B && AddressRange(WindowCommands[1].args) == (0, ScreenHeight - 1)
    ensures WindowCommands[2].opcode == 0x2C && WindowCommands[2].args == []
  {}

  /** A prefix of a script's events actually delivered, and the hardware afterwards. */
  datatype Delivery = Delivery(count: nat, bus: Bus)

  /** One event: a write goes through one retry-wrapped transfer under its D/C level; a delay
      is recorded only. */
  function DeliverOne(e: Event, bus: Bus): (r: Sent)
    ensures r.bus.trace == bus.trace + (if r.ok then [e] else [])
    ensures r.bus.ioctl == bus.ioctl && bus.attempts <= r.bus.attempts
    ensures !r.ok ==> e.Write?
  {
    match e
    case Delay(_) => Sent(true, bus.(trace := bus.trace + [e]))
    case Write(dc, data) => Transfer(SetDc(bus, dc), data)
  }

  /** Deliver the events in order until a write fails (the source's exit(1)). */
  function Deliver(evs: seq<Event>, bus: Bus): (d: Delivery)
    ensures d.count <= |evs|
    ensures d.bus.trace == bus.trace + evs[..d.count]
    ensures d.bus.ioctl == bus.ioctl && bus.attempts <= d.bus.attempts
    ensures d.count < |evs| ==> evs[d.count].Write?
    decreases |evs|
  {
    if evs == [] then Delivery(0, bus)
    else
      var s := DeliverOne(evs[0], bus);
      if !s.ok then Delivery(0, s.bus)
      else
        var rest := Deliver(evs[1..], s.bus);
        assert evs[..rest.count + 1] == [evs[0]] + evs[1..][..rest.count];
        Delivery(rest.count + 1, rest.bus)
  }

  /** The events that make ioctl calls: the writes. */
  function WriteCount(evs: seq<Event>): (n: nat)
    ensures n <= |evs|
    decreases |evs|
  {
    if evs == [] then 0 else (if evs[0].Write? then 1 else 0) + WriteCount(evs[1..])
  }

  lemma DeliverDelay(ms: nat, evs: seq<Event>, bus: Bus)
    ensures var d := Deliver(evs, bus.(trace := bus.trace + [Delay(ms)]));
      Deliver([Delay(ms)] + evs, bus) == Delivery(d.count + 1, d.bus)
  {
    assert ([Delay(ms)] + evs)[1..] == evs;
  }

  lemma DeliverWrite(dc: bool, data: seq<bv8>, evs: seq<Event>, bus: Bus)
    ensures var t := Transfer(SetDc(bus, dc), data);
      && (t.ok ==> Deliver([Write(dc, data)] + evs, bus) == Delivery(Deliver(evs, t.bus).count + 1, Deliver(evs, t.bus).bus))
      && (!t.ok ==> Deliver([Write(dc, data)] + evs, bus) == Delivery(0, t.bus))
  {
    assert ([Write(dc, data)] + evs)[1..] == evs;
  }

  /** On a bus whose next |evs| ioctl calls all succeed, every event is delivered, each
      write on its first attempt. */
  lemma {:induction false} DeliverOnHealthyBus(evs: seq<Event>, bus: Bus)
    requires bus.attempts + |evs| <= |bus.ioctl|
    requires forall k :: bus.attempts <= k < bus.attempts + |evs| ==> bus.ioctl[k]
    ensures Deliver(evs, bus).count == |evs|
    ensures Deliver(evs, bus).bus.trace == bus.trace + evs
    ensures Deliver(evs, bus).bus.attempts == bus.attempts + WriteCount(evs)
    decreases |evs|
  {
    if evs != [] {
      assert evs == [evs[0]] + evs[1..];
      match evs[0]
      case Delay(ms) =>
        DeliverDelay(ms, evs[1..], bus);
        DeliverOnHealthyBus(evs[1..], bus.(trace := bus.trace + [evs[0]]));
      case Write(dc, data) =>
        DeliverWrite(dc, data, evs[1..], bus);
        TransferFirstAttempt(SetDc(bus, dc), data);
        DeliverOnHealthyBus(evs[1..], Transfer(SetDc(bus, dc), data).bus);
    }
  }

  /** How send_command_sequence ends: a write failed and the source calls exit(1), or the
      interpreter stopped, on a terminator or at a read past the end of the array. */
  datatype Outcome = Fatal | Stopped(halt: Halt)

  /** Where the interpreter ends on the hardware: the bus and the outcome. */
  datatype Ending = Ending(bus: Bus, outcome: Outcome)

  /** send_command_sequence on real hardware, from index i in the given phase: the
      interpreter with each write going through write_to_display, stopping at the first
      failed write. */
  function Exec(cmds: seq<bv16>, i: nat, phase: Phase, bus: Bus): (r: Ending)
    requires i <= |cmds|
    decreases |cmds| - i, Rank(phase)
  {
    match phase
    case AtOpcode =>
      if i == |cmds| then Ending(bus, Stopped(ReadPastEnd(i)))
      else if cmds[i] == 0 then Ending(bus, Stopped(Terminated(i)))
      else
        AfterWrite(cmds, i + 1, AtFlags, Transfer(SetDc(bus, false), [Low8(cmds[i])]))
    case AtFlags =>
      if i == |cmds| then Ending(bus, Stopped(ReadPastEnd(i)))
      else Exec(cmds, i + 1, InArgs(ArgCount(cmds[i]), HasDelay(cmds[i])), bus)
    case InArgs(n, d) =>
      if n == 0 then Exec(cmds, i, AfterArgs(d), bus)
      else if i == |cmds| then Ending(bus, Stopped(ReadPastEnd(i)))
      else
        AfterWrite(cmds, i + 1, InArgs(n - 1, d), Transfer(SetDc(bus, true), [Low8(cmds[i])]))
    case AtDelay =>
      if i == |cmds| then Ending(bus, Stopped(ReadPastEnd(i)))
      else Exec(cmds, i + 1, AtOpcode, bus.(trace := bus.trace + [Delay(DelayMs(cmds[i]))]))
  }

  /** The interpreter after a write: Fatal when it failed, otherwise on from index i. */
  function AfterWrite(cmds: seq<bv16>, i: nat, phase: Phase, t: Sent): (r: Ending)
    requires 0 < i <= |cmds|
    decreases |cmds| - i, 3
  {
    if !t.ok then Ending(t.bus, Fatal) else Exec(cmds, i, phase, t.bus)
  }

  /** Running a script on the hardware from index i in the given phase is delivering the
      events the script asks for from there, in order, up to the first failed write: it ends
      Fatal exactly when some write failed, and otherwise where the interpreter halts. */
  predicate ExecDelivers(cmds: seq<bv16>, i: nat, phase: Phase, bus: Bus)
    requires i <= |cmds|
  {
    var r := Run(cmds, i, phase);
    var d := Deliver(r.events, bus);
    Exec(cmds, i, phase, bus) == Ending(d.bus, if d.count < |r.events| then Fatal else Stopped(r.halt))
  }

  lemma ExecWriteStep(cmds: seq<bv16>, i: nat, phase: Phase, bus: Bus, dc: bool, b: bv8, i2: nat, p2: Phase)
    requires i <= |cmds| && i2 <= |cmds|
    requires Run(cmds, i, phase) == Then(Write(dc, [b]), Run(cmds, i2, p2))
    requires var t := Transfer(SetDc(bus, dc), [b]);
      Exec(cmds, i, phase, bus) == if !t.ok then Ending(t.bus, Fatal) else Exec(cmds, i2, p2, t.bus)
    requires ExecDelivers(cmds, i2, p2, Transfer(SetDc(bus, dc), [b]).bus)
    ensures ExecDelivers(cmds, i, phase, bus)
  {
    DeliverWrite(dc, [b], Run(cmds, i2, p2).events, bus);
  }

  lemma ExecDelayStep(cmds: seq<bv16>, i: nat, bus: Bus)
    requires i < |cmds|
    requires ExecDelivers(cmds, i + 1, AtOpcode, bus.(trace := bus.trace + [Delay(DelayMs(cmds[i]))]))
    ensures ExecDelivers(cmds, i, AtDelay, bus)
  {
    DeliverDelay(DelayMs(cmds[i]), Run(cmds, i + 1, AtOpcode).events, bus);
  }

  lemma ExecOpcodeStep(cmds: seq<bv16>, i: nat, bus: Bus)
    requires i < |cmds| && cmds[i] != 0
    requires ExecDelivers(cmds, i + 1, AtFlags, Transfer(SetDc(bus, false), [Low8(cmds[i])]).bus)
    ensures ExecDelivers(cmds, i, AtOpcode, bus)
  {
    OpcodeStep(cmds, i);
    ExecWriteStep(cmds, i, AtOpcode, bus, false, Low8(cmds[i]), i + 1, AtFlags);
  }

  lemma ExecArgStep(cmds: seq<bv16>, i: nat, n: nat, d: bool, bus: Bus)
    requires i < |cmds| && n > 0
    requires ExecDelivers(cmds, i + 1, InArgs(n - 1, d), Transfer(SetDc(bus, true), [Low8(cmds[i])]).bus)
    ensures ExecDelivers(cmds, i, InArgs(n, d), bus)
  {
    ArgStep(cmds, i, n, d);
    ExecWriteStep(cmds, i, InArgs(n, d), bus, true, Low8(cmds[i]), i + 1, InArgs(n - 1, d));
  }

  lemma ExecFlagsStep(cmds: seq<bv16>, i: nat, bus: Bus)
    requires i < |cmds|
    requires ExecDelivers(cmds, i + 1, InArgs(ArgCount(cmds[i]), HasDelay(cmds[i])), bus)
    ensures ExecDelivers(cmds, i, AtFlags, bus)
  {}

  lemma ExecArgsDone(cmds: seq<bv16>, i: nat, d: bool, bus: Bus)
    requires i <= |cmds|
    requires ExecDelivers(cmds, i, AfterArgs(d), bus)
    ensures ExecDelivers(cmds, i, InArgs(0, d), bus)
  {}

  lemma ExecHalts(cmds: seq<bv16>, i: nat, phase: Phase, bus: Bus)
    requires i <= |cmds| && (i == |cmds| || (phase == AtOpcode && cmds[i] == 0))
    requires !phase.InArgs? || phase.remaining > 0
    ensures ExecDelivers(cmds, i, phase, bus)
  {}

  lemma {:induction false} ExecIsDeliveredRun(cmds: seq<bv16>, i: nat, phase: Phase, bus: Bus)
    requires i <= |cmds|
    ensures ExecDelivers(cmds, i, phase, bus)
    decreases |cmds| - i, Rank(phase)
  {
    if phase.InArgs? && phase.remaining == 0 {
      ExecIsDeliveredRun(cmds, i, AfterArgs(phase.hasDelay), bus);
      ExecArgsDone(cmds, i, phase.hasDelay, bus);
    } else if i == |cmds| || (phase == AtOpcode && cmds[i] == 0) {
      ExecHalts(cmds, i, phase, bus);
    } else {
      match phase
      case AtOpcode =>
        ExecIsDeliveredRun(cmds, i + 1, AtFlags, Transfer(SetDc(bus, false), [Low8(cmds[i])]).bus);
        ExecOpcodeStep(cmds, i, bus);
      case AtFlags =>
        ExecIsDeliveredRun(cmds, i + 1, InArgs(ArgCount(cmds[i]), HasDelay(cmds[i])), bus);
        ExecFlagsStep(cmds, i, bus);
      case InArgs(n, d) =>
        ExecIsDeliveredRun(cmds, i + 1, InArgs(n - 1, d), Transfer(SetDc(bus, true), [Low8(cmds[i])]).bus);
        ExecArgStep(cmds, i, n, d, bus);
      case AtDelay =>
        ExecIsDeliveredRun(cmds, i + 1, AtOpcode, bus.(trace := bus.trace + [Delay(DelayMs(cmds[i]))]));
        ExecDelayStep(cmds, i, bus);
    }
  }

  /** The steps of Exec that SendCommandSequence takes, one lemma per step. */
  lemma ExecOpcodeWrite(cmds: seq<bv16>, i: nat, bus: Bus, ok: bool, next: Bus)
    requires i < |cmds| && cmds[i] != 0
    requires Sent(ok, next) == Transfer(SetDc(bus, false), [Low8(cmds[i])])
    ensures Exec(cmds, i, AtOpcode, bus) == if ok then Exec(cmds, i + 1, AtFlags, next) else Ending(next, Fatal)
  {}

  lemma ExecFlags(cmds: seq<bv16>, i: nat, bus: Bus)
    requires i <= |cmds|
    ensures Exec(cmds, i, AtFlags, bus) == if i == |cmds| then Ending(bus, Stopped(ReadPastEnd(i)))
      else Exec(cmds, i + 1, InArgs(ArgCount(cmds[i]), HasDelay(cmds[i])), bus)
  {}

  lemma ExecArgWrite(cmds: seq<bv16>, i: nat, n: nat, d: bool, bus: Bus, ok: bool, next: Bus, goal: Ending)
    requires i < |cmds| && n > 0 && Exec(cmds, i, InArgs(n, d), bus) == goal
    requires Sent(ok, next) == Transfer(SetDc(bus, true), [Low8(cmds[i])])
    ensures ok ==> Exec(cmds, i + 1, InArgs(n - 1, d), next) == goal
    ensures !ok ==> Ending(next, Fatal) == goal
  {}

  lemma ExecPastEnd(cmds: seq<bv16>, phase: Phase, bus: Bus)
    requires !phase.InArgs? || phase.remaining > 0
    ensures Exec(cmds, |cmds|, phase, bus) == Ending(bus, Stopped(ReadPastEnd(|cmds|)))
  {}

  lemma ExecArgsEnd(cmds: seq<bv16>, i: nat, d: bool, bus: Bus)
    requires i <= |cmds|
    ensures Exec(cmds, i, InArgs(0, d), bus) == Exec(cmds, i, AfterArgs(d), bus)
  {}

  lemma ExecDelay(cmds: seq<bv16>, i: nat, bus: Bus)
    requires i < |cmds|
    ensures Exec(cmds, i, AtDelay, bus) == Exec(cmds, i + 1, AtOpcode, bus.(trace := bus.trace + [Delay(DelayMs(cmds[i]))]))
  {}

  /** Whether a part of the interpreter loop ran to its end or the interpreter stopped in it. */
  datatype Pass = Continue | Stop(outcome: Outcome)

  /** The argument loop of send_command_sequence: numArgs data writes from index i on. Either
      the interpreter stops during it, with stop the outcome, or it carries on after the
      arguments, at index next. */
  method SendArguments(bus: Bus, cmds: seq<bv16>, i: nat, numArgs: nat, hasDelay: bool)
    returns (bus': Bus, next: nat, stop: Pass)
    requires i <= |cmds|
    ensures i <= next <= |cmds|
    ensures stop.Stop? ==> Ending(bus', stop.outcome) == Exec(cmds, i, InArgs(numArgs, hasDelay), bus)
    ensures stop.Continue? ==> Exec(cmds, next, AfterArgs(hasDelay), bus') == Exec(cmds, i, InArgs(numArgs, hasDelay), bus)
  {
    ghost var goal := Exec(cmds, i, InArgs(numArgs, hasDelay), bus);
    var n := numArgs;
    bus', next := bus, i;
    while n > 0
      invariant i <= next <= |cmds| && Exec(cmds, next, InArgs(n, hasDelay), bus') == goal
      decreases n
    {
      if next == |cmds| {
        ExecPastEnd(cmds, InArgs(n, hasDelay), bus');
        return bus', next, Stop(Stopped(ReadPastEnd(next)));
      }
      var ok, b := WriteToDisplay(bus', Low8(cmds[next]), true);
      ExecArgWrite(cmds, next, n, hasDelay, bus', ok, b, goal);
      if !ok {
        return b, next, Stop(Fatal);
      }
      bus', next, n := b, next + 1, n - 1;
    }
    ExecArgsEnd(cmds, next, hasDelay, bus');
    stop := Continue;
  }

  /** One pass of the loop of send_command_sequence: the command whose opcode is at index i.
      Either the interpreter stops during it (a failed write, or a read past the end), with
      stop the outcome, or it reaches the next opcode at index next. */
  method SendCommand(bus: Bus, cmds: seq<bv16>, i: nat) returns (bus': Bus, next: nat, stop: Pass)
    requires i < |cmds| && cmds[i] != 0
    ensures i < next <= |cmds|
    ensures stop.Stop? ==> Ending(bus', stop.outcome) == Exec(cmds, i, AtOpcode, bus)
    ensures stop.Continue? ==> Exec(cmds, next, AtOpcode, bus') == Exec(cmds, i, AtOpcode, bus)
  {
    ghost var goal := Exec(cmds, i, AtOpcode, bus);
    var ok, b := WriteToDisplay(bus, Low8(cmds[i]), false);
    ExecOpcodeWrite(cmds, i, bus, ok, b);
    if !ok {
      return b, i + 1, Stop(Fatal);
    }
    bus', next := b, i + 1;
    ExecFlags(cmds, next, bus');
    if next == |cmds| {
      return bus', next, Stop(Stopped(ReadPastEnd(next)));
    }
    var hasDelay := HasDelay(cmds[next]);
    bus', next, stop := SendArguments(bus', cmds, next + 1, ArgCount(cmds[next]), hasDelay);
    if stop.Continue? {
      bus', next, stop := ReadDelay(bus', cmds, next, hasDelay);
    }
  }

  /** The end of one pass of the loop of send_command_sequence: when the flags asked for a
      delay, read the delay byte (255 standing for 500 ms) and record it. */
  method ReadDelay(bus: Bus, cmds: seq<bv16>, i: nat, hasDelay: bool) returns (bus': Bus, next: nat, stop: Pass)
    requires i <= |cmds|
    ensures i <= next <= |cmds|
    ensures stop.Stop? ==> Ending(bus', stop.outcome) == Exec(cmds, i, AfterArgs(hasDelay), bus)
    ensures stop.Continue? ==> Exec(cmds, next, AtOpcode, bus') == Exec(cmds, i, AfterArgs(hasDelay), bus)
  {
    bus', next, stop := bus, i, Continue;
    if hasDelay {
      if i == |cmds| {
        ExecPastEnd(cmds, AtDelay, bus);
        return bus, i, Stop(Stopped(ReadPastEnd(i)));
      }
      var ms := cmds[i] as nat;
      if ms == 255 {
        ms := 500;
      }
      ExecDelay(cmds, i, bus);
      bus', next := bus.(trace := bus.trace + [Delay(ms)]), i + 1;
    }
  }

  /** send_command_sequence: the interpreter, reading the array entry by entry. It stops where
      the source would read past the end, and with Fatal where the source exits because a
      write failed; what it does is delivering the script's events up to the first failed
      write. */
  method SendCommandSequence(bus: Bus, cmds: seq<bv16>) returns (bus': Bus, outcome: Outcome)
    ensures Ending(bus', outcome) == Exec(cmds, 0, AtOpcode, bus)
    ensures var r := Run(cmds, 0, AtOpcode);
      var d := Deliver(r.events, bus);
      && bus' == d.bus
      && outcome == (if d.count < |r.events| then Fatal else Stopped(r.halt))
  {
    ExecIsDeliveredRun(cmds, 0, AtOpcode, bus);
    var i := 0;
    bus' := bus;
    while i < |cmds| && cmds[i] != 0
      invariant i <= |cmds| && Exec(cmds, i, AtOpcode, bus') == Exec(cmds, 0, AtOpcode, bus)
      decreases |cmds| - i
    {
      var stop;
      bus', i, stop := SendCommand(bus', cmds, i);
      if stop.Stop? {
        return bus', stop.outcome;
      }
    }
    if i == |cmds| {
      ExecPastEnd(cmds, AtOpcode, bus');
    }
    outcome := Stopped(if i == |cmds| then ReadPastEnd(i) else Terminated(i));
  }

  /** The number of events a list of commands stands for: per command, the opcode, one per
      argument and one for a delay. */
  function EventCount(cs: seq<Command>): nat {
    if cs == [] then 0
    else 1 + |cs[0].args| + (if cs[0].delay.Some? then 1 else 0) + EventCount(cs[1..])
  }

  lemma {:induction false} RequestedAllLength(cs: seq<Command>)
    ensures |RequestedAll(cs)| == EventCount(cs)
  {
    if cs != [] {
      RequestedShape(cs[0]);
      RequestedAllLength(cs[1..]);
    }
  }

  /** The initialisation script stands for 20 events: nine opcodes, five argument bytes and
      six delays. */
  lemma InitEventCount()
    ensures |RequestedAll(InitCommands)| == 20
  {
    RequestedAllLength(InitCommands);
  }

  /** On a bus whose next 20 ioctl calls succeed, the initialisation script is delivered in
      full: the trace grows by exactly the events of its nine commands and the interpreter
      stops on the terminator. */
  lemma InitOnHealthyBus(bus: Bus)
    requires bus.attempts + 20 <= |bus.ioctl|
    requires forall k :: bus.attempts <= k < bus.attempts + 20 ==> bus.ioctl[k]
    ensures var r := Run(InitScript, 0, AtOpcode);
      var d := Deliver(r.events, bus);
      && d.count == |r.events|
      && d.bus.trace == bus.trace + RequestedAll(InitCommands)
      && r.halt == Terminated(29)
  {
    InitScriptWellFormed();
    InitEventCount();
    DeliverOnHealthyBus(RequestedAll(InitCommands), bus);
  }
}
