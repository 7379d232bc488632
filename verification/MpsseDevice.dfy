/** The other end of the USB cable: what an FTDI chip in MPSSE mode does with a stream of command
    bytes, per the command set in FTDI AN2232C-01. Only the LSB-first shift commands are understood;
    anything else, and a command cut short, makes `Run` fail. */
module MpsseDevice {
  import opened Bits

  /** What a command stream makes happen on the pins, in order. */
  datatype Action =
    | Clock(tms: bool, tdi: bool)
    | SetLow(data: byte, dir: byte)
    | SetHigh(data: byte, dir: byte)
    | ReadLow
    | ReadHigh
    | Divisor(value: nat)
    | Config(op: byte)

  /** Everything outside: what TDO shows at a clock (given all actions up to and including that
      clock), what the GPIO pins read, the bits left over in a partly filled reply byte, and the pin
      levels before the first command. */
  datatype Env = Env(
    tdo: seq<Action> -> bool, low: seq<Action> -> byte, high: seq<Action> -> byte,
    noise: seq<Action> -> byte, tms0: bool, tdi0: bool)

  /** The TMS pin holds its last value. */
  function TmsPin(env: Env, acts: seq<Action>): bool {
    if acts == [] then env.tms0
    else
      var last, before := acts[|acts| - 1], acts[..|acts| - 1];
      match last
      case Clock(tms, _) => tms
      case SetLow(data, dir) => if Bit(dir, 3) then Bit(data, 3) else TmsPin(env, before)
      case _ => TmsPin(env, before)
  }

  /** So does the TDI pin. */
  function TdiPin(env: Env, acts: seq<Action>): bool {
    if acts == [] then env.tdi0
    else
      var last, before := acts[|acts| - 1], acts[..|acts| - 1];
      match last
      case Clock(_, tdi) => tdi
      case SetLow(data, dir) => if Bit(dir, 1) then Bit(data, 1) else TdiPin(env, before)
      case _ => TdiPin(env, before)
  }

  function Repeat(v: bool, n: nat): (r: seq<bool>)
    ensures |r| == n
  {
    seq(n, _ => v)
  }

  function Clocks(tms: seq<bool>, tdi: seq<bool>): (r: seq<Action>)
    requires |tms| == |tdi|
    ensures |r| == |tms|
  {
    seq(|tms|, k requires 0 <= k < |tms| => Clock(tms[k], tdi[k]))
  }

  /** What TDO showed at each action from number `from` on. */
  function Samples(env: Env, acts: seq<Action>, from: nat): (r: seq<bool>)
    requires from <= |acts|
    ensures |r| == |acts| - from
  {
    seq(|acts| - from, k requires 0 <= k < |acts| - from => env.tdo(acts[..from + k + 1]))
  }

  /** In bit mode the reply shifts in from the top: `n` bits end up in the top `n` places. */
  function TopBits(bits: seq<bool>, noise: byte): byte
    requires |bits| <= 8
  {
    FromBits(BufBits([noise], 0, 8 - |bits|) + bits)
  }

  /** Shift commands: bit 1 bit mode, bit 3 LSB first, bit 4 write TDI, bit 5 read TDO, bit 6 TMS. */
  predicate IsShift(op: byte) {
    && op < 0x80 && Bit(op, 3)
    && (if Bit(op, 6) then Bit(op, 1) && !Bit(op, 4) else Bit(op, 4) || Bit(op, 5))
  }

  /** Clocks made by the shift command at the front of `b`. */
  function ShiftCount(b: seq<byte>): nat
    requires |b| >= 3 || (|b| >= 2 && Bit(b[0], 1))
  {
    if Bit(b[0], 1) then b[1] as int + 1 else 8 * (b[1] as int + 256 * b[2] as int + 1)
  }

  /** Length of the command at the front of `b`, 0 when there is no whole command there. */
  function CommandLength(b: seq<byte>): (n: nat)
    requires |b| > 0
    ensures n <= |b|
  {
    var op := b[0];
    if || op == 0x81 || op == 0x83 || op == 0x84 || op == 0x85 || op == 0x87
       || op == 0x8a || op == 0x8b || op == 0x96 || op == 0x97 then 1
    else if op == 0x80 || op == 0x82 || op == 0x86 then if |b| < 3 then 0 else 3
    else if !IsShift(op) then 0
    else if Bit(op, 6) then if |b| < 3 || b[1] >= 7 then 0 else 3
    else if Bit(op, 1) then
      var n := if Bit(op, 4) then 3 else 2;
      if |b| < n || b[1] >= 8 then 0 else n
    else if |b| < 3 then 0
    else
      var n := if Bit(op, 4) then 3 + ShiftCount(b) / 8 else 3;
      if |b| < n then 0 else n
  }

  datatype Outcome = Outcome(acts: seq<Action>, reply: seq<byte>)

  datatype Option<T> = None | Some(value: T)

  function ExecShift(env: Env, acts: seq<Action>, b: seq<byte>): Outcome
    requires |b| > 0 && b[0] < 0x80 && CommandLength(b) == |b|
  {
    var op, n := b[0], ShiftCount(b);
    var tms := if Bit(op, 6) then BufBits(b[2..], 0, n) else Repeat(TmsPin(env, acts), n);
    var tdi :=
      if Bit(op, 6) then Repeat(Bit(b[2], 7), n)
      else if !Bit(op, 4) then Repeat(TdiPin(env, acts), n)
      else if Bit(op, 1) then BufBits(b[2..], 0, n)
      else BufBits(b[3..], 0, n);
    var acts' := acts + Clocks(tms, tdi);
    var tdo := Samples(env, acts', |acts|);
    var reply :=
      if !Bit(op, 5) then [] else if Bit(op, 1) then [TopBits(tdo, env.noise(acts))] else PackBytes(tdo);
    Outcome(acts', reply)
  }

  function Exec(env: Env, acts: seq<Action>, b: seq<byte>): Outcome
    requires |b| > 0 && CommandLength(b) == |b|
  {
    var op := b[0];
    if op < 0x80 then ExecShift(env, acts, b)
    else if op == 0x80 then Outcome(acts + [SetLow(b[1], b[2])], [])
    else if op == 0x82 then Outcome(acts + [SetHigh(b[1], b[2])], [])
    else if op == 0x81 then Outcome(acts + [ReadLow], [env.low(acts)])
    else if op == 0x83 then Outcome(acts + [ReadHigh], [env.high(acts)])
    else if op == 0x86 then Outcome(acts + [Divisor(b[1] as int + 256 * b[2] as int)], [])
    else if op == 0x87 then Outcome(acts, [])  // SEND_IMMEDIATE
    else Outcome(acts + [Config(op)], [])
  }

  /** The device: `acts` is everything done so far, the result adds what `bytes` makes it do and the
      reply bytes it sends back. */
  function Run(env: Env, acts: seq<Action>, bytes: seq<byte>): Option<Outcome>
    decreases |bytes|
  {
    if bytes == [] then Some(Outcome(acts, []))
    else
      var n := CommandLength(bytes);
      if n == 0 then None
      else
        assert bytes == bytes[..n] + bytes[n..];
        CommandIsPrefix(bytes[..n], bytes[n..]);
        var one := Exec(env, acts, bytes[..n]);
        Prepend(one.reply, Run(env, one.acts, bytes[n..]))
  }

  function Prepend(reply: seq<byte>, o: Option<Outcome>): Option<Outcome> {
    match o
    case None => None
    case Some(rest) => Some(Outcome(rest.acts, reply + rest.reply))
  }

  lemma PrependTwice(r1: seq<byte>, r2: seq<byte>, o: Option<Outcome>)
    ensures Prepend(r1, Prepend(r2, o)) == Prepend(r1 + r2, o)
  {
    if o.Some? {
      assert r1 + (r2 + o.value.reply) == (r1 + r2) + o.value.reply;
    }
  }

  lemma CommandIsPrefix(b: seq<byte>, more: seq<byte>)
    requires |b| > 0
    ensures CommandLength(b) != 0 ==> CommandLength(b + more) == CommandLength(b)
    ensures CommandLength(b + more) == |b| ==> CommandLength(b) == |b|
  {
  }

  /** Feeding a stream in two pieces is the same as feeding it at once. */
  lemma {:induction false} RunAppend(env: Env, acts: seq<Action>, b: seq<byte>, more: seq<byte>)
    requires Run(env, acts, b).Some?
    ensures var first := Run(env, acts, b).value;
      Run(env, acts, b + more) == Prepend(first.reply, Run(env, first.acts, more))
    decreases |b|
  {
    hide Exec, CommandLength, Prepend;
    if b == [] {
      assert b + more == more;
      PrependNothing(Run(env, acts, more));
    } else {
      var n := CommandLength(b);
      CommandIsPrefix(b, more);
      assert b == b[..n] + b[n..];
      CommandIsPrefix(b[..n], b[n..]);
      assert (b + more)[..n] == b[..n];
      assert (b + more)[n..] == b[n..] + more;
      var one := Exec(env, acts, b[..n]);
      assert Run(env, acts, b) == Prepend(one.reply, Run(env, one.acts, b[n..]));
      PrependSome(one.reply, Run(env, one.acts, b[n..]));
      RunAppend(env, one.acts, b[n..], more);
      var mid := Run(env, one.acts, b[n..]).value;
      PrependTwice(one.reply, mid.reply, Run(env, mid.acts, more));
    }
  }

  lemma PrependNothing(o: Option<Outcome>)
    ensures Prepend([], o) == o
  {
    if o.Some? { assert [] + o.value.reply == o.value.reply; }
  }

  lemma PrependSome(reply: seq<byte>, o: Option<Outcome>)
    ensures Prepend(reply, o).Some? ==>
      && o.Some?
      && Prepend(reply, o).value == Outcome(o.value.acts, reply + o.value.reply)
  {
  }
}
