/** What the pin registers of the MAX96717 say, read bit by bit, and what each configuration asks of a pin. */
module PinDecoder {
  import opened Registers

  const NUM_PINS: nat := 11

  datatype Param = OutputEnable | InputEnable | TxEn | RxEn | InputValue | Output | JitterCompensation
                 | PullStrengthHigh | TxId | OpenDrain | PushPull | BiasDisable | BiasPullDown | BiasPullUp
                 | SlewRate | RxId | Other

  datatype Pull = NoPull | PullUp | PullDown | Reserved

  datatype PinState = PinState(driven: bool, sends: bool, receives: bool, input: bool, level: bool,
                               compensated: bool, strong: bool, txId: nat, pushPull: bool, pull: Pull, rxId: nat,
                               slew: nat)

  function PullOf(lo: bool, hi: bool): Pull {
    if lo then (if hi then Reserved else PullUp) else (if hi then PullDown else NoPull)
  }

  function TwoBits(lo: bool, hi: bool): nat {
    (if lo then 1 else 0) + (if hi then 2 else 0)
  }

  predicate HasSlew(pin: nat) {
    pin <= 4 || pin == 7 || pin == 8
  }

  // The slew rates of some of the pins sit in three registers they share.
  function SlewOf(regs: RegFile, pin: nat): nat {
    match pin
    case 0 => TwoBits(regs[0x56f][0], regs[0x56f][1])
    case 1 => TwoBits(regs[0x56f][2], regs[0x56f][3])
    case 2 => TwoBits(regs[0x56f][4], regs[0x56f][5])
    case 3 => TwoBits(regs[0x570][2], regs[0x570][3])
    case 4 => TwoBits(regs[0x570][4], regs[0x570][5])
    case 7 => TwoBits(regs[0x571][4], regs[0x571][5])
    case 8 => TwoBits(regs[0x571][6], regs[0x571][7])
    case _ => 0
  }

  function Decode(regs: RegFile, pin: nat): PinState
    requires pin < NUM_PINS
  {
    var a, b, c := regs[0x2be + 3 * pin], regs[0x2bf + 3 * pin], regs[0x2c0 + 3 * pin];
    PinState(!a[0], a[1], a[2], a[3], a[4], a[5], a[7],
             FromBits(b[..5]), b[5], PullOf(b[6], b[7]), FromBits(c[..5]), SlewOf(regs, pin))
  }

  predicate Settable(pin: nat, param: Param) {
    param != InputValue && param != Other && (param == SlewRate ==> HasSlew(pin))
  }

  // What a configuration makes of a pin: levels drive, ids switch their direction on, pulls take a strength.
  function Configured(s: PinState, param: Param, arg: nat): PinState {
    match param
    case OutputEnable => s.(driven := arg != 0, receives := false)
    case InputEnable => s.(driven := arg == 0)
    case TxEn => s.(sends := arg != 0)
    case RxEn => s.(receives := arg != 0)
    case Output => s.(level := arg != 0, driven := true, receives := false)
    case JitterCompensation => s.(compensated := arg != 0)
    case PullStrengthHigh => s.(strong := arg != 0)
    case TxId => s.(txId := arg % 32, sends := true)
    case RxId => s.(rxId := arg % 32, receives := true)
    case OpenDrain => s.(pushPull := false)
    case PushPull => s.(pushPull := true)
    case BiasDisable => s.(pull := NoPull)
    case BiasPullDown => s.(pull := PullDown, strong := arg >= 1_000_000)
    case BiasPullUp => s.(pull := PullUp, strong := arg >= 1_000_000)
    case SlewRate => s.(slew := arg % 4)
    case _ => s
  }

  datatype Config = Config(param: Param, arg: nat)

  function ConfiguredAll(s: PinState, configs: seq<Config>): PinState {
    if configs == [] then s
    else
      var last := configs[|configs| - 1];
      Configured(ConfiguredAll(s, configs[..|configs| - 1]), last.param, last.arg)
  }

  // ----- Reading single fields -----

  lemma GetBit(b: Byte, k: nat)
    requires k < 8
    ensures Get(b, Field(k, 1)) == if b[k] then 1 else 0
  {
    var s := b[k..k + 1];
    assert s[0] == b[k] && s[1..] == [];
  }

  lemma GetTwoBits(b: Byte, k: nat)
    requires k < 7
    ensures Get(b, Field(k, 2)) == TwoBits(b[k], b[k + 1])
  {
    var s := b[k..k + 2];
    assert s == [b[k], b[k + 1]] && s[1..] == [b[k + 1]] && s[1..][1..] == [];
    assert FromBits(s[1..]) == if b[k + 1] then 1 else 0;
  }
}
