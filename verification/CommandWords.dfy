/** The packed 32-bit command word, its ring sequence number and its session. */
module CommandWords {
  import Division

  /** Modes and fan modes; two bits on the wire, so a fourth, unnamed value can arrive. */
  datatype FurnaceMode = Off | Heat | Cool | UnknownMode
  datatype FanMode = Automatic | AlwaysOn | Circulate | UnknownFan

  /** The setpoint is in tenths of a degree. */
  datatype CommandWord = CommandWord(
    mode: FurnaceMode, fan: FanMode, setpoint: nat, number: nat, filterReset: bool, syncRequest: bool,
    preserveMode: bool, preserveFan: bool, preserveSetpoint: bool, session: nat)

  const MAX_SETPOINT: nat := 400
  const MAX_SESSION: nat := 31
  const SEQS: nat := 512

  function ModeBits(mode: FurnaceMode): nat {
    match mode case Off => 0 case Heat => 1 case Cool => 2 case UnknownMode => 3
  }

  function ModeOf(bits: nat): FurnaceMode {
    match bits case 0 => Off case 1 => Heat case 2 => Cool case _ => UnknownMode
  }

  function FanBits(fan: FanMode): nat {
    match fan case Automatic => 0 case AlwaysOn => 1 case Circulate => 2 case UnknownFan => 3
  }

  function FanOf(bits: nat): FanMode {
    match bits case 0 => Automatic case 1 => AlwaysOn case 2 => Circulate case _ => UnknownFan
  }

  function Bit(b: bool): nat {
    if b then 1 else 0
  }

  // ---- Packing ------------------------------------------------------------------------

  /** The field at weight `d` with `m` values: a shift and a mask. */
  function Field(word: nat, d: nat, m: nat): nat
    requires d > 0 && m > 0
  {
    word / d % m
  }

  /** A field of a word made of `low` below weight `d`, a digit of `m` values at `d`, and `high` above. */
  lemma Unstack(word: nat, low: nat, d: nat, digit: nat, m: nat, high: nat)
    requires word == low + d * (digit + m * high) && low < d && digit < m
    ensures Field(word, d, m) == digit
  {
    Division.Unique(word, d, digit + m * high, low);
    Division.Unique(digit + m * high, m, high, digit);
  }

  /** `encode`: fields at bits 0, 2, 4, 13, 22 to 26 and 27. */
  function Encode(cmd: CommandWord): nat {
    var low := ModeBits(cmd.mode) + 0x4 * FanBits(cmd.fan)
               + 0x10 * (if cmd.setpoint > MAX_SETPOINT then MAX_SETPOINT else cmd.setpoint)
               + 0x2000 * (cmd.number % SEQS);
    var flags := Flags(Bit(cmd.filterReset), Bit(cmd.syncRequest), Bit(cmd.preserveMode), Bit(cmd.preserveFan),
                       Bit(cmd.preserveSetpoint));
    low + 0x40_0000 * flags + 0x800_0000 * (cmd.session % 32)
  }

  function Flags(f: nat, y: nat, m: nat, n: nat, p: nat): nat {
    f + 2 * y + 4 * m + 8 * n + 16 * p
  }

  /** `decode`. */
  function Decode(word: nat): CommandWord {
    var setpoint := Field(word, 0x10, 512);
    CommandWord(
      ModeOf(Field(word, 1, 4)), FanOf(Field(word, 4, 4)),
      if setpoint > MAX_SETPOINT then MAX_SETPOINT else setpoint,
      Field(word, 0x2000, 512),
      Field(word, 0x40_0000, 2) != 0, Field(word, 0x80_0000, 2) != 0,
      Field(word, 0x100_0000, 2) != 0, Field(word, 0x200_0000, 2) != 0, Field(word, 0x400_0000, 2) != 0,
      Field(word, 0x800_0000, 32))
  }

  /** The words the wire can carry unchanged. */
  predicate OnWire(cmd: CommandWord) {
    cmd.setpoint <= MAX_SETPOINT && cmd.number < SEQS && cmd.session < 32
  }

  lemma LowFields(mode: nat, fan: nat, setpoint: nat, number: nat, flags: nat, session: nat)
    requires mode < 4 && fan < 4 && setpoint < 512 && number < 512
    ensures var w := mode + 0x4 * fan + 0x10 * setpoint + 0x2000 * number + 0x40_0000 * flags + 0x800_0000 * session;
            && Field(w, 1, 4) == mode && Field(w, 4, 4) == fan
            && Field(w, 0x10, 512) == setpoint && Field(w, 0x2000, 512) == number
  {
    hide Field;
    var w := mode + 0x4 * fan + 0x10 * setpoint + 0x2000 * number + 0x40_0000 * flags + 0x800_0000 * session;
    var top := flags + 32 * session;
    Unstack(w, 0, 1, mode, 4, fan + 4 * setpoint + 0x800 * number + 0x10_0000 * top);
    Unstack(w, mode, 4, fan, 4, setpoint + 0x200 * number + 0x4_0000 * top);
    Unstack(w, mode + 4 * fan, 0x10, setpoint, 512, number + 0x200 * top);
    Unstack(w, mode + 4 * fan + 0x10 * setpoint, 0x2000, number, 512, top);
  }

  lemma HighFields(low: nat, f: nat, y: nat, m: nat, n: nat, p: nat, session: nat)
    requires low < 0x40_0000 && f < 2 && y < 2 && m < 2 && n < 2 && p < 2 && session < 32
    ensures var w := low + 0x40_0000 * Flags(f, y, m, n, p) + 0x800_0000 * session;
            && w < 0x1_0000_0000
            && Field(w, 0x40_0000, 2) == f && Field(w, 0x80_0000, 2) == y && Field(w, 0x100_0000, 2) == m
            && Field(w, 0x200_0000, 2) == n && Field(w, 0x400_0000, 2) == p && Field(w, 0x800_0000, 32) == session
  {
    hide Field;
    var w := low + 0x40_0000 * Flags(f, y, m, n, p) + 0x800_0000 * session;
    Unstack(w, low, 0x40_0000, f, 2, y + 2 * m + 4 * n + 8 * p + 16 * session);
    Unstack(w, low + 0x40_0000 * f, 0x80_0000, y, 2, m + 2 * n + 4 * p + 8 * session);
    var low2 := low + 0x40_0000 * f + 0x80_0000 * y;
    Unstack(w, low2, 0x100_0000, m, 2, n + 2 * p + 4 * session);
    Unstack(w, low2 + 0x100_0000 * m, 0x200_0000, n, 2, p + 2 * session);
    Unstack(w, low2 + 0x100_0000 * m + 0x200_0000 * n, 0x400_0000, p, 2, session);
    Unstack(w, low2 + 0x100_0000 * m + 0x200_0000 * n + 0x400_0000 * p, 0x800_0000, session, 32, 0);
  }

  /** What is left of a word on the wire. */
  function Masked(cmd: CommandWord): CommandWord {
    cmd.(setpoint := if cmd.setpoint > MAX_SETPOINT then MAX_SETPOINT else cmd.setpoint,
         number := cmd.number % SEQS, session := cmd.session % 32)
  }

  lemma CodesInvert(cmd: CommandWord)
    ensures ModeBits(cmd.mode) < 4 && ModeOf(ModeBits(cmd.mode)) == cmd.mode
    ensures FanBits(cmd.fan) < 4 && FanOf(FanBits(cmd.fan)) == cmd.fan
  {
  }

  lemma DecodeOfEncode(cmd: CommandWord)
    ensures Encode(cmd) < 0x1_0000_0000 && Decode(Encode(cmd)) == Masked(cmd)
  {
    hide Field, Flags, ModeBits, FanBits, ModeOf, FanOf;
    CodesInvert(cmd);
    var masked := Masked(cmd);
    var flags := Flags(Bit(cmd.filterReset), Bit(cmd.syncRequest), Bit(cmd.preserveMode), Bit(cmd.preserveFan),
                       Bit(cmd.preserveSetpoint));
    LowFields(ModeBits(cmd.mode), FanBits(cmd.fan), masked.setpoint, masked.number, flags, masked.session);
    HighFields(ModeBits(cmd.mode) + 0x4 * FanBits(cmd.fan) + 0x10 * masked.setpoint + 0x2000 * masked.number,
               Bit(cmd.filterReset), Bit(cmd.syncRequest), Bit(cmd.preserveMode), Bit(cmd.preserveFan),
               Bit(cmd.preserveSetpoint), masked.session);
  }

  /** A word comes off the wire as it was put on exactly when its fields fit their bits. */
  lemma WordRoundTrip(cmd: CommandWord)
    ensures Encode(cmd) < 0x1_0000_0000
    ensures Decode(Encode(cmd)) == cmd <==> OnWire(cmd)
  {
    hide Encode, Decode;
    DecodeOfEncode(cmd);
    assert cmd.number % SEQS == cmd.number <==> cmd.number < SEQS;
    assert cmd.session % 32 == cmd.session <==> cmd.session < 32;
  }

  // ---- Sequence numbers and sessions --------------------------------------------------

  function NextSeq(number: nat): nat {
    (number + 1) % SEQS
  }

  function NextSession(session: nat): nat {
    session % MAX_SESSION + 1
  }

  /** Newer means 1 to 256 ahead in the ring of 512. */
  predicate NewerSeq(last: nat, incoming: nat) {
    0 < (incoming - last) % SEQS <= 0x100
  }

  /**
   Against the unbounded numbers the ring stands for: a word up to 256 ahead is newer, one up
   to 255 behind or equal is not.
   */
  lemma NewerMeansLater(last: nat, incoming: nat)
    requires last <= incoming + 255 && incoming <= last + 256
    ensures NewerSeq(last % SEQS, incoming % SEQS) <==> last < incoming
  {
    var d := incoming - last;
    var k := last / SEQS - incoming / SEQS;
    assert incoming % SEQS - last % SEQS == d + k * SEQS;
    Division.Shift(d, SEQS, k);
    if d >= 0 {
      Division.Unique(d, SEQS, 0, d);
    } else {
      Division.Unique(d, SEQS, -1, d + SEQS);
    }
  }

  lemma SeqCounts(k: nat)
    ensures NextSeq(k % SEQS) == (k + 1) % SEQS
  {
    Division.Shift(k % SEQS + 1, SEQS, k / SEQS);
  }

  /** A new session is never 0, which means none, and never the one before. */
  lemma SessionsDiffer(session: nat)
    ensures 1 <= NextSession(session) <= MAX_SESSION && NextSession(session) != session
  {
    if session < MAX_SESSION {
      Division.Unique(session, MAX_SESSION, 0, session);
    }
  }
}
