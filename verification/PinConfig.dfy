/** Pin configuration of the MAX96717: a recursive setter and getter over registers that pins share. */
module PinConfig {
  import opened PinDecoder
  import opened Registers

  const PULL_1M: nat := 1_000_000
  const PULL_40K: nat := 40_000

  datatype Errno = Einval | Enotsupp | Eio

  datatype Result<+T> = Value(value: T) | Error(errno: Errno)

  // Where a parameter lives, and the field value that stands for "on".
  datatype Place = Place(reg: nat, field: Field, en: nat)

  function GpioA(pin: nat): nat { 0x2be + pin * 3 }

  function GpioB(pin: nat): nat { 0x2bf + pin * 3 }

  function GpioC(pin: nat): nat { 0x2c0 + pin * 3 }

  function PinConfigReg(pin: nat, param: Param): Result<Place> {
    match param
    case OutputEnable => Value(Place(GpioA(pin), Field(0, 1), 0))
    case InputEnable => Value(Place(GpioA(pin), Field(0, 1), 1))
    case TxEn => Value(Place(GpioA(pin), Field(1, 1), 1))
    case RxEn => Value(Place(GpioA(pin), Field(2, 1), 1))
    case InputValue => Value(Place(GpioA(pin), Field(3, 1), 1))
    case Output => Value(Place(GpioA(pin), Field(4, 1), 1))
    case JitterCompensation => Value(Place(GpioA(pin), Field(5, 1), 1))
    case PullStrengthHigh => Value(Place(GpioA(pin), Field(7, 1), 1))
    case TxId => Value(Place(GpioB(pin), Field(0, 5), 0))
    case OpenDrain => Value(Place(GpioB(pin), Field(5, 1), 0))
    case PushPull => Value(Place(GpioB(pin), Field(5, 1), 1))
    case BiasDisable => Value(Place(GpioB(pin), Field(6, 2), 0))
    case BiasPullDown => Value(Place(GpioB(pin), Field(6, 2), 2))
    case BiasPullUp => Value(Place(GpioB(pin), Field(6, 2), 1))
    case SlewRate =>
      if pin < 3 then Value(Place(0x56f, Field(2 * pin, 2), 0))
      else if pin < 5 then Value(Place(0x570, if pin == 3 then Field(2, 2) else Field(4, 2), 0))
      else if pin < 7 then Error(Einval)
      else if pin < 9 then Value(Place(0x571, if pin == 7 then Field(4, 2) else Field(6, 2), 0))
      else Error(Einval)
    case RxId => Value(Place(GpioC(pin), Field(0, 5), 0))
    case Other => Error(Enotsupp)
  }

  function FieldOf(regs: RegFile, pin: nat, param: Param): nat
    requires pin < NUM_PINS && PinConfigReg(pin, param).Value?
  {
    var place := PinConfigReg(pin, param).value;
    Get(regs[place.reg], place.field)
  }

  // How deep the setter and the getter may still recurse.
  function Rank(param: Param): nat {
    match param
    case Output => 2
    case OutputEnable | BiasPullDown | BiasPullUp | TxId | RxId => 1
    case _ => 0
  }

  // ----- The specification: one step of the setter, and what it sets next -----

  function Prepared(param: Param, en: nat, arg: nat): Result<nat> {
    match param
    case OpenDrain | PushPull | BiasDisable | BiasPullDown | BiasPullUp => Value(en)
    case JitterCompensation | PullStrengthHigh | TxEn | RxEn | OutputEnable | InputEnable | Output =>
      Value(if arg != 0 then en else 1 - en % 2)  // the complement of a one-bit field
    case TxId | RxId | SlewRate => Value(arg)
    case _ => Error(Enotsupp)
  }

  datatype Next = Done | Then(param: Param, arg: nat)

  function Following(param: Param, arg: nat): (n: Next)
    ensures n.Then? ==> Rank(n.param) < Rank(param)
  {
    match param
    case BiasPullDown | BiasPullUp => Then(PullStrengthHigh, if arg >= PULL_1M then 1 else 0)
    case Output => Then(OutputEnable, 1)
    case OutputEnable => Then(RxEn, 0)
    case TxId => Then(TxEn, 1)
    case RxId => Then(RxEn, 1)
    case _ => Done
  }

  function Store(regs: RegFile, pin: nat, param: Param, x: nat): RegFile
    requires pin < NUM_PINS && PinConfigReg(pin, param).Value?
  {
    var place := PinConfigReg(pin, param).value;
    regs[place.reg := Put(regs[place.reg], place.field, x)]
  }

  // The registers after a set that meets no bus error, or the error it ends with.
  function SetOne(regs: RegFile, pin: nat, param: Param, arg: nat): Result<RegFile>
    requires pin < NUM_PINS
    decreases Rank(param)
  {
    var place := PinConfigReg(pin, param);
    if place.Error? then Error(place.errno)
    else
      var x := Prepared(param, place.value.en, arg);
      if x.Error? then Error(x.errno)
      else
        var after := Store(regs, pin, param, x.value);
        match Following(param, arg)
        case Done => Value(after)
        case Then(next, nextArg) => SetOne(after, pin, next, nextArg)
  }

  function GetOne(regs: RegFile, pin: nat, param: Param): Result<nat>
    requires pin < NUM_PINS
    decreases Rank(param)
  {
    var place := PinConfigReg(pin, param);
    if place.Error? then Error(place.errno)
    else
      var x := FieldOf(regs, pin, param);
      var on := x == place.value.en;
      match param
      case OpenDrain | PushPull | BiasDisable | JitterCompensation | TxEn | RxEn | OutputEnable | InputEnable =>
        if on then Value(1) else Error(Einval)
      case PullStrengthHigh | InputValue | Output => Value(if on then 1 else 0)
      case SlewRate => Value(x)
      case TxId =>
        var enabled := GetOne(regs, pin, TxEn);
        if enabled.Error? then Error(enabled.errno) else Value(x)
      case RxId =>
        var enabled := GetOne(regs, pin, RxEn);
        if enabled.Error? then Error(enabled.errno) else Value(x)
      case BiasPullDown | BiasPullUp =>
        if !on then Error(Einval)
        else
          var strength := GetOne(regs, pin, PullStrengthHigh);
          if strength.Error? then Error(strength.errno)
          else Value(if strength.value != 0 then PULL_1M else PULL_40K)
      case Other => Error(Enotsupp)
  }

  // ----- Set, then get -----

  // What the getter answers after a successful set of `arg`: a flag that is on reads 1, a flag that was
  // set to 0 is refused, levels are 0 or 1, pull strengths are quantised, and numbers are cut to their field.
  function ReadsBack(param: Param, arg: nat): Result<nat> {
    match param
    case OpenDrain | PushPull | BiasDisable => Value(1)
    case JitterCompensation | TxEn | RxEn | OutputEnable | InputEnable => if arg != 0 then Value(1) else Error(Einval)
    case PullStrengthHigh | Output => Value(if arg != 0 then 1 else 0)
    case BiasPullDown | BiasPullUp => Value(if arg >= PULL_1M then PULL_1M else PULL_40K)
    case TxId | RxId => Value(arg % 32)
    case SlewRate => Value(arg % 4)
    case _ => Error(Enotsupp)
  }

  predicate Apart(pin: nat, param: Param, q: nat, other: Param) {
    var a, b := PinConfigReg(pin, param), PinConfigReg(q, other);
    a.Value? && b.Value? && (a.value.reg != b.value.reg || Disjoint(a.value.field, b.value.field))
  }

  lemma StoreReads(regs: RegFile, pin: nat, param: Param, x: nat)
    requires pin < NUM_PINS && PinConfigReg(pin, param).Value?
    ensures FieldOf(Store(regs, pin, param, x), pin, param) == x % Pow2(PinConfigReg(pin, param).value.field.width)
  {
    var place := PinConfigReg(pin, param).value;
    GetPut(regs[place.reg], place.field, x);
  }

  lemma StoreKeeps(regs: RegFile, pin: nat, param: Param, x: nat, q: nat, other: Param)
    requires pin < NUM_PINS && q < NUM_PINS && Apart(pin, param, q, other)
    ensures FieldOf(Store(regs, pin, param, x), q, other) == FieldOf(regs, q, other)
  {
    var place, theirs := PinConfigReg(pin, param).value, PinConfigReg(q, other).value;
    if place.reg == theirs.reg {
      GetPutOther(regs[place.reg], place.field, x, theirs.field);
    }
  }

  // ----- What the registers say -----

  // Parameters that share one field.
  function Slot(param: Param): Param {
    match param
    case InputEnable => OutputEnable
    case PushPull => OpenDrain
    case BiasPullDown | BiasPullUp => BiasDisable
    case _ => param
  }

  lemma SlotsApart(pin: nat, param: Param, other: Param)
    requires pin < NUM_PINS && Slot(param) != Slot(other)
    requires PinConfigReg(pin, param).Value? && PinConfigReg(pin, other).Value?
    ensures Apart(pin, param, pin, other)
  {
  }

  // What the field of a parameter has to hold for a pin in this state.
  function Said(s: PinState, param: Param): nat {
    match param
    case OutputEnable | InputEnable => if s.driven then 0 else 1
    case TxEn => if s.sends then 1 else 0
    case RxEn => if s.receives then 1 else 0
    case InputValue => if s.input then 1 else 0
    case Output => if s.level then 1 else 0
    case JitterCompensation => if s.compensated then 1 else 0
    case PullStrengthHigh => if s.strong then 1 else 0
    case TxId => s.txId
    case OpenDrain | PushPull => if s.pushPull then 1 else 0
    case BiasDisable | BiasPullDown | BiasPullUp => PullCode(s.pull)
    case SlewRate => s.slew
    case RxId => s.rxId
    case Other => 0
  }

  function PullCode(pull: Pull): nat {
    match pull
    case NoPull => 0
    case PullUp => 1
    case PullDown => 2
    case Reserved => 3
  }

  // The fields of the table say what the decoder reads bit by bit.
  lemma FieldDecodes(regs: RegFile, pin: nat, param: Param)
    requires pin < NUM_PINS && PinConfigReg(pin, param).Value?
    ensures FieldOf(regs, pin, param) == Said(Decode(regs, pin), param)
  {
    var place := PinConfigReg(pin, param).value;
    if place.field.width == 1 {
      GetBit(regs[place.reg], place.field.lo);
    } else if place.field.width == 2 {
      GetTwoBits(regs[place.reg], place.field.lo);
    }
  }

  lemma SlewPlaces(pin: nat)
    ensures PinConfigReg(pin, SlewRate).Value? <==> HasSlew(pin)
  {
  }

  // A state is what its fields say.
  lemma SaysAll(s: PinState, t: PinState)
    requires forall param | Slot(param) == param && param != Other :: Said(s, param) == Said(t, param)
    ensures s == t
  {
    assert Said(s, OutputEnable) == Said(t, OutputEnable) && Said(s, TxEn) == Said(t, TxEn);
    assert Said(s, RxEn) == Said(t, RxEn) && Said(s, InputValue) == Said(t, InputValue);
    assert Said(s, Output) == Said(t, Output) && Said(s, JitterCompensation) == Said(t, JitterCompensation);
    assert Said(s, PullStrengthHigh) == Said(t, PullStrengthHigh) && Said(s, OpenDrain) == Said(t, OpenDrain);
    assert Said(s, TxId) == Said(t, TxId) && Said(s, RxId) == Said(t, RxId);
    assert Said(s, BiasDisable) == Said(t, BiasDisable) && Said(s, SlewRate) == Said(t, SlewRate);
  }

  // What one stored field value makes of a pin.
  function WithField(s: PinState, param: Param, x: nat): PinState {
    match param
    case OutputEnable | InputEnable => s.(driven := x % 2 == 0)
    case TxEn => s.(sends := x % 2 == 1)
    case RxEn => s.(receives := x % 2 == 1)
    case InputValue => s.(input := x % 2 == 1)
    case Output => s.(level := x % 2 == 1)
    case JitterCompensation => s.(compensated := x % 2 == 1)
    case PullStrengthHigh => s.(strong := x % 2 == 1)
    case TxId => s.(txId := x % 32)
    case RxId => s.(rxId := x % 32)
    case OpenDrain | PushPull => s.(pushPull := x % 2 == 1)
    case BiasDisable | BiasPullDown | BiasPullUp => s.(pull := PullOf(x % 2 == 1, x / 2 % 2 == 1))
    case SlewRate => s.(slew := x % 4)
    case Other => s
  }

  lemma PullCodeOf(x: nat)
    ensures PullCode(PullOf(x % 2 == 1, x / 2 % 2 == 1)) == x % 4
  {
  }

  lemma OtherSlotsSay(s: PinState, param: Param, x: nat, other: Param)
    requires Slot(other) != Slot(param)
    ensures Said(WithField(s, param, x), other) == Said(s, other)
  {
    match param {
      case OutputEnable | InputEnable | TxEn | RxEn | InputValue | Output | JitterCompensation =>
      case PullStrengthHigh | TxId | RxId | SlewRate | Other =>
      case OpenDrain | PushPull =>
      case BiasDisable | BiasPullDown | BiasPullUp =>
    }
  }

  lemma OwnSlotSays(s: PinState, param: Param, x: nat)
    ensures Said(WithField(s, param, x), param) ==
      match param
      case TxId | RxId => x % 32
      case BiasDisable | BiasPullDown | BiasPullUp | SlewRate => x % 4
      case Other => 0
      case _ => x % 2
  {
    match param {
      case BiasDisable | BiasPullDown | BiasPullUp => PullCodeOf(x);
      case _ =>
    }
  }

  lemma SaidPerSlot(s: PinState, param: Param)
    ensures Said(s, param) == Said(s, Slot(param))
  {
  }

  lemma StoreDecodes(regs: RegFile, pin: nat, param: Param, x: nat)
    requires pin < NUM_PINS && PinConfigReg(pin, param).Value?
    ensures Decode(Store(regs, pin, param, x), pin) == WithField(Decode(regs, pin), param, x)
  {
    var after, s := Store(regs, pin, param, x), Decode(regs, pin);
    forall other | Slot(other) == other && other != Other
      ensures Said(Decode(after, pin), other) == Said(WithField(s, param, x), other)
    {
      StoreSays(regs, pin, param, x, other);
    }
    SaysAll(Decode(after, pin), WithField(s, param, x));
  }

  lemma StoreSays(regs: RegFile, pin: nat, param: Param, x: nat, other: Param)
    requires pin < NUM_PINS && PinConfigReg(pin, param).Value? && Slot(other) == other && other != Other
    ensures Said(Decode(Store(regs, pin, param, x), pin), other) == Said(WithField(Decode(regs, pin), param, x), other)
  {
    var after, s := Store(regs, pin, param, x), Decode(regs, pin);
    if other == Slot(param) {
      OwnSlotSays(s, param, x);
      SaidPerSlot(Decode(after, pin), param);
      SaidPerSlot(WithField(s, param, x), param);
      StoreReads(regs, pin, param, x);
      FieldDecodes(after, pin, param);
      assert Pow2(1) == 2 && Pow2(2) == 4 && Pow2(5) == 32;
    } else if PinConfigReg(pin, other).Value? {
      OtherSlotsSay(s, param, x, other);
      SlotsApart(pin, param, other);
      StoreKeeps(regs, pin, param, x, pin, other);
      FieldDecodes(regs, pin, other);
      FieldDecodes(after, pin, other);
    } else {
      OtherSlotsSay(s, param, x, other);
      SlewPlaces(pin);
    }
  }

  // The value a set stores for an argument, in the table's terms.
  function StoredFor(pin: nat, param: Param, arg: nat): Result<nat> {
    var place := PinConfigReg(pin, param);
    if place.Error? then Error(place.errno) else Prepared(param, place.value.en, arg)
  }

  // What the field of a parameter holds for an argument.
  function Code(param: Param, arg: nat): nat {
    match param
    case OutputEnable => if arg != 0 then 0 else 1
    case InputEnable | TxEn | RxEn | Output | JitterCompensation | PullStrengthHigh => if arg != 0 then 1 else 0
    case TxId | RxId | SlewRate => arg
    case PushPull | BiasPullUp => 1
    case BiasPullDown => 2
    case _ => 0
  }

  lemma StoredExactly(pin: nat, param: Param, arg: nat)
    ensures StoredFor(pin, param, arg) ==
      if Settable(pin, param) then Value(Code(param, arg)) else Error(if param == SlewRate then Einval else Enotsupp)
    ensures Settable(pin, param) ==> PinConfigReg(pin, param).Value?
  {
  }

  // One step of a set and what follows it make of a pin what the configuration asks.
  lemma LeafStep(s: PinState, param: Param, arg: nat)
    requires Following(param, arg).Done? && param != InputValue && param != Other
    ensures WithField(s, param, Code(param, arg)) == Configured(s, param, arg)
  {
  }

  lemma FollowingSettable(pin: nat, param: Param, arg: nat)
    requires Following(param, arg).Then?
    ensures Settable(pin, Following(param, arg).param)
  {
  }

  lemma ChainStep(s: PinState, param: Param, arg: nat)
    requires Following(param, arg).Then?
    ensures var now, next := WithField(s, param, Code(param, arg)), Following(param, arg);
      Configured(now, next.param, next.arg) == Configured(s, param, arg)
  {
    match param {
      case Output | OutputEnable =>
      case TxId | RxId =>
      case BiasPullDown =>
      case BiasPullUp =>
    }
  }

  /** Independently of the table: a set succeeds exactly for the parameters a pin has, and then each thing about
      the pin that the registers say is as the configuration asks, and all others are as before. */
  lemma {:induction false} SetConfigures(regs: RegFile, pin: nat, param: Param, arg: nat)
    requires pin < NUM_PINS
    ensures if Settable(pin, param) then SetOne(regs, pin, param, arg).Value?
            else SetOne(regs, pin, param, arg) == Error(if param == SlewRate then Einval else Enotsupp)
    ensures Settable(pin, param) ==>
      Decode(SetOne(regs, pin, param, arg).value, pin) == Configured(Decode(regs, pin), param, arg)
    decreases Rank(param)
  {
    StoredExactly(pin, param, arg);
    if Settable(pin, param) {
      var x := StoredFor(pin, param, arg).value;
      StoreDecodes(regs, pin, param, x);
      if Following(param, arg).Done? {
        LeafStep(Decode(regs, pin), param, arg);
      } else {
        ChainStep(Decode(regs, pin), param, arg);
        FollowingSettable(pin, param, arg);
        SetConfigures(Store(regs, pin, param, x), pin, Following(param, arg).param, Following(param, arg).arg);
      }
    }
  }

  // What the getter makes of a pin.
  function Answer(s: PinState, pin: nat, param: Param): Result<nat> {
    match param
    case OutputEnable => if s.driven then Value(1) else Error(Einval)
    case InputEnable => if s.driven then Error(Einval) else Value(1)
    case TxEn => if s.sends then Value(1) else Error(Einval)
    case RxEn => if s.receives then Value(1) else Error(Einval)
    case InputValue => Value(if s.input then 1 else 0)
    case Output => Value(if s.level then 1 else 0)
    case JitterCompensation => if s.compensated then Value(1) else Error(Einval)
    case PullStrengthHigh => Value(if s.strong then 1 else 0)
    case TxId => if s.sends then Value(s.txId) else Error(Einval)
    case RxId => if s.receives then Value(s.rxId) else Error(Einval)
    case OpenDrain => if s.pushPull then Error(Einval) else Value(1)
    case PushPull => if s.pushPull then Value(1) else Error(Einval)
    case BiasDisable => if s.pull == NoPull then Value(1) else Error(Einval)
    case BiasPullDown => if s.pull == PullDown then Value(if s.strong then 1_000_000 else 40_000) else Error(Einval)
    case BiasPullUp => if s.pull == PullUp then Value(if s.strong then 1_000_000 else 40_000) else Error(Einval)
    case SlewRate => if HasSlew(pin) then Value(s.slew) else Error(Einval)
    case Other => Error(Enotsupp)
  }

  /** The getter answers what the registers say of the pin. */
  lemma GetAnswers(regs: RegFile, pin: nat, param: Param)
    requires pin < NUM_PINS
    ensures GetOne(regs, pin, param) == Answer(Decode(regs, pin), pin, param)
  {
    SlewPlaces(pin);
    if PinConfigReg(pin, param).Value? {
      FieldDecodes(regs, pin, param);
    }
    FieldDecodes(regs, pin, TxEn);
    FieldDecodes(regs, pin, RxEn);
    FieldDecodes(regs, pin, PullStrengthHigh);
  }

  lemma ConfiguredAnswers(s: PinState, pin: nat, param: Param, arg: nat)
    requires Settable(pin, param)
    ensures Answer(Configured(s, param, arg), pin, param) == ReadsBack(param, arg)
  {
  }

  /** Whatever is set reads back, for every parameter, argument and pin. */
  lemma SetThenGet(regs: RegFile, pin: nat, param: Param, arg: nat)
    requires pin < NUM_PINS && SetOne(regs, pin, param, arg).Value?
    ensures GetOne(SetOne(regs, pin, param, arg).value, pin, param) == ReadsBack(param, arg)
  {
    SetConfigures(regs, pin, param, arg);
    GetAnswers(SetOne(regs, pin, param, arg).value, pin, param);
    ConfiguredAnswers(Decode(regs, pin), pin, param, arg);
  }

  predicate ReturnedExactly(param: Param, arg: nat) {
    match param
    case PullStrengthHigh | Output => arg <= 1
    case BiasPullDown | BiasPullUp => arg == PULL_1M || arg == PULL_40K
    case TxId | RxId => arg < 32
    case SlewRate => arg < 4
    case InputValue | Other => false
    case _ => arg == 1
  }

  lemma ExactlyReadsBack(param: Param, arg: nat)
    ensures ReadsBack(param, arg) == Value(arg) <==> ReturnedExactly(param, arg)
  {
  }

  /** The getter returns the very argument for exactly these parameters and arguments. */
  lemma ArgumentReturnedExactly(regs: RegFile, pin: nat, param: Param, arg: nat)
    requires pin < NUM_PINS && SetOne(regs, pin, param, arg).Value?
    ensures GetOne(SetOne(regs, pin, param, arg).value, pin, param) == Value(arg) <==> ReturnedExactly(param, arg)
  {
    SetThenGet(regs, pin, param, arg);
    ExactlyReadsBack(param, arg);
  }

  /** An output set to a level really drives: its output is enabled and it no longer receives. */
  lemma OutputDrives(regs: RegFile, pin: nat, arg: nat)
    requires pin < NUM_PINS
    ensures SetOne(regs, pin, Output, arg).Value?
    ensures var after := SetOne(regs, pin, Output, arg).value;
      GetOne(after, pin, OutputEnable) == Value(1) && GetOne(after, pin, RxEn) == Error(Einval)
  {
    SetConfigures(regs, pin, Output, arg);
    GetAnswers(SetOne(regs, pin, Output, arg).value, pin, OutputEnable);
    GetAnswers(SetOne(regs, pin, Output, arg).value, pin, RxEn);
  }

  // ----- Pins do not disturb each other -----

  // Every field of every other pin is as before.
  predicate OtherPinsKept(before: RegFile, after: RegFile, pin: nat) {
    forall q: nat, param | q < NUM_PINS && q != pin && PinConfigReg(q, param).Value? ::
      FieldOf(after, q, param) == FieldOf(before, q, param)
  }

  lemma OtherPinsStillKept(before: RegFile, mid: RegFile, after: RegFile, pin: nat)
    requires OtherPinsKept(before, mid, pin) && OtherPinsKept(mid, after, pin)
    ensures OtherPinsKept(before, after, pin)
  {
  }

  // Three registers a pin, and slew fields that do not overlap.
  lemma PinsApart(pin: nat, param: Param, q: nat, other: Param)
    requires pin < NUM_PINS && q < NUM_PINS && pin != q
    requires PinConfigReg(pin, param).Value? && PinConfigReg(q, other).Value?
    ensures Apart(pin, param, q, other)
  {
  }

  lemma KeptFieldsKeepAnswers(before: RegFile, after: RegFile, pin: nat, q: nat, param: Param)
    requires q < NUM_PINS && q != pin && OtherPinsKept(before, after, pin)
    ensures GetOne(after, q, param) == GetOne(before, q, param)
  {
  }

  datatype Ending = Ok | Failed(errno: Errno)

  // ----- The updates of a set, in order -----

  datatype UpdateData = Update(reg: nat, field: Field, x: nat)

  type Update = u: UpdateData | u.reg < 0x1_0000 witness Update(0, WHOLE, 0)

  // The updates a set tries one after the other, and how it ends if they all go through.
  datatype Plan = Plan(updates: seq<Update>, end: Ending)

  // The update a set begins with, or why it is refused.
  function FirstUpdate(pin: nat, param: Param, arg: nat): (u: Result<Update>)
    requires pin < NUM_PINS
    ensures u.Error? ==> u.errno != Eio
  {
    var place := PinConfigReg(pin, param);
    if place.Error? then Error(place.errno)
    else
      var x := Prepared(param, place.value.en, arg);
      if x.Error? then Error(x.errno) else Value(Update(place.value.reg, place.value.field, x.value))
  }

  function PlanOne(pin: nat, param: Param, arg: nat): (plan: Plan)
    requires pin < NUM_PINS
    ensures plan.end != Failed(Eio)
    decreases Rank(param)
  {
    var u := FirstUpdate(pin, param, arg);
    if u.Error? then Plan([], Failed(u.errno))
    else
      match Following(param, arg)
      case Done => Plan([u.value], Ok)
      case Then(next, nextArg) =>
        var rest := PlanOne(pin, next, nextArg);
        Plan([u.value] + rest.updates, rest.end)
  }

  function PlanNext(pin: nat, next: Next): Plan
    requires pin < NUM_PINS
  {
    if next.Done? then Plan([], Ok) else PlanOne(pin, next.param, next.arg)
  }

  function PlansOf(pin: nat, configs: seq<Config>): (plans: seq<Plan>)
    requires pin < NUM_PINS
    ensures |plans| == |configs|
  {
    seq(|configs|, k requires 0 <= k < |configs| => PlanOne(pin, configs[k].param, configs[k].arg))
  }

  // The plans from number `i` on, in order, up to the first that ends in an error.
  function JoinedFrom(plans: seq<Plan>, i: nat): Plan
    requires i <= |plans|
    decreases |plans| - i
  {
    if i == |plans| then Plan([], Ok)
    else if plans[i].end.Failed? then plans[i]
    else Plan(plans[i].updates + JoinedFrom(plans, i + 1).updates, JoinedFrom(plans, i + 1).end)
  }

  // A list is set up to the first configuration that is refused.
  function PlanAll(pin: nat, configs: seq<Config>): Plan
    requires pin < NUM_PINS
  {
    JoinedFrom(PlansOf(pin, configs), 0)
  }

  function Stored(regs: RegFile, u: Update): RegFile {
    regs[u.reg := Put(regs[u.reg], u.field, u.x)]
  }

  function Apply(regs: RegFile, us: seq<Update>): RegFile {
    if us == [] then regs else Stored(Apply(regs, us[..|us| - 1]), us[|us| - 1])
  }

  lemma {:induction false} ApplyBoth(regs: RegFile, us: seq<Update>, vs: seq<Update>)
    ensures Apply(regs, us + vs) == Apply(Apply(regs, us), vs)
  {
    if vs == [] {
      assert us + vs == us;
    } else {
      var n := |vs| - 1;
      ApplyBoth(regs, us, vs[..n]);
      assert (us + vs)[..|us + vs| - 1] == us + vs[..n];
    }
  }

  lemma ApplyOne(regs: RegFile, u: Update)
    ensures Apply(regs, [u]) == Stored(regs, u) && Apply(regs, []) == regs
  {
    assert [u][..0] == [];
  }

  // After `tries` updates the plan is done and has ended as planned, or the last of them failed.
  predicate Executed(before: RegFile, after: RegFile, plan: Plan, ret: Ending, tries: int) {
    if ret == Failed(Eio) then 0 < tries <= |plan.updates| && after == Apply(before, plan.updates[..tries - 1])
    else tries == |plan.updates| && after == Apply(before, plan.updates) && ret == plan.end
  }

  // A plan that follows updates which went through.
  lemma ExecutedAfter(before: RegFile, after: RegFile, done: seq<Update>, plan: Plan, ret: Ending, tries: int)
    requires Executed(Apply(before, done), after, plan, ret, tries)
    ensures Executed(before, after, Plan(done + plan.updates, plan.end), ret, |done| + tries)
  {
    if ret == Failed(Eio) {
      ApplyBoth(before, done, plan.updates[..tries - 1]);
      assert (done + plan.updates)[..|done| + tries - 1] == done + plan.updates[..tries - 1];
    } else {
      ApplyBoth(before, done, plan.updates);
    }
  }

  lemma FirstThenRest(before: RegFile, after: RegFile, u: Update, rest: Plan, ret: Ending, tries: int)
    requires Executed(Stored(before, u), after, rest, ret, tries)
    ensures Executed(before, after, Plan([u] + rest.updates, rest.end), ret, tries + 1)
  {
    ApplyOne(before, u);
    ExecutedAfter(before, after, [u], rest, ret, tries);
  }

  lemma FirstFails(before: RegFile, u: Update, rest: Plan)
    ensures Executed(before, before, Plan([u] + rest.updates, rest.end), Failed(Eio), 1)
  {
    assert ([u] + rest.updates)[..0] == [];
  }

  // An update that fails in a plan fails in any plan that goes on after it.
  lemma ExecutedBefore(before: RegFile, after: RegFile, plan: Plan, rest: Plan, tries: int)
    requires Executed(before, after, plan, Failed(Eio), tries)
    ensures Executed(before, after, Plan(plan.updates + rest.updates, rest.end), Failed(Eio), tries)
  {
    assert (plan.updates + rest.updates)[..tries - 1] == plan.updates[..tries - 1];
  }

  predicate Follows(whole: Plan, done: seq<Update>, rest: Plan) {
    whole == Plan(done + rest.updates, rest.end)
  }

  // Where the execution of several plans, begun after `first` attempts, is after `tried`: `done` went through
  // before plan `i`, or it has ended.
  predicate InList(before: RegFile, now: RegFile, plans: seq<Plan>, i: nat, done: seq<Update>, ret: Ending,
                   first: nat, tried: nat)
    requires i <= |plans|
  {
    if ret.Ok? then
      now == Apply(before, done) && tried == first + |done| && Follows(JoinedFrom(plans, 0), done, JoinedFrom(plans, i))
    else Executed(before, now, JoinedFrom(plans, 0), ret, tried - first)
  }

  lemma PlansStep(before: RegFile, mid: RegFile, after: RegFile, plans: seq<Plan>, i: nat, done: seq<Update>,
                  ret: Ending, first: nat, tried: nat, last: nat)
    requires i < |plans| && InList(before, mid, plans, i, done, Ok, first, tried)
    requires Executed(mid, after, plans[i], ret, last - tried)
    ensures InList(before, after, plans, i + 1, done + plans[i].updates, ret, first, last)
  {
    if ret.Ok? {
      ApplyBoth(before, done, plans[i].updates);
      OnePlanMore(plans, i, done);
    } else {
      if ret == Failed(Eio) && plans[i].end.Ok? {
        ExecutedBefore(mid, after, plans[i], JoinedFrom(plans, i + 1), last - tried);
      }
      ExecutedAfter(before, after, done, JoinedFrom(plans, i), ret, last - tried);
    }
  }

  lemma OnePlanMore(plans: seq<Plan>, i: nat, done: seq<Update>)
    requires i < |plans| && plans[i].end.Ok? && Follows(JoinedFrom(plans, 0), done, JoinedFrom(plans, i))
    ensures Follows(JoinedFrom(plans, 0), done + plans[i].updates, JoinedFrom(plans, i + 1))
  {
    var one, rest := plans[i], JoinedFrom(plans, i + 1);
    assert done + (one.updates + rest.updates) == done + one.updates + rest.updates;
  }

  lemma PlansDone(before: RegFile, now: RegFile, plans: seq<Plan>, done: seq<Update>, ret: Ending,
                  first: nat, tried: nat)
    requires InList(before, now, plans, |plans|, done, ret, first, tried)
    ensures Executed(before, now, JoinedFrom(plans, 0), ret, tried - first)
  {
    assert done + [] == done;
  }

  // What the setter does first.
  lemma FirstUpdateStores(regs: RegFile, pin: nat, param: Param, arg: nat)
    requires pin < NUM_PINS && FirstUpdate(pin, param, arg).Value?
    ensures var after, next := Stored(regs, FirstUpdate(pin, param, arg).value), Following(param, arg);
      SetOne(regs, pin, param, arg) == if next.Done? then Value(after) else SetOne(after, pin, next.param, next.arg)
  {
  }

  /** The updates of a set, applied in order, are the set. */
  lemma {:induction false} SetOnePlanned(regs: RegFile, pin: nat, param: Param, arg: nat)
    requires pin < NUM_PINS
    ensures var plan := PlanOne(pin, param, arg);
      SetOne(regs, pin, param, arg) ==
        if plan.end.Failed? then Error(plan.end.errno) else Value(Apply(regs, plan.updates))
    decreases Rank(param)
  {
    var u, next := FirstUpdate(pin, param, arg), Following(param, arg);
    if u.Value? {
      ApplyOne(regs, u.value);
      FirstUpdateStores(regs, pin, param, arg);
      if next.Then? {
        SetOnePlanned(Stored(regs, u.value), pin, next.param, next.arg);
        ApplyBoth(regs, [u.value], PlanOne(pin, next.param, next.arg).updates);
      }
    }
  }

  // An update that touches no field of any other pin.
  ghost predicate Spares(u: Update, pin: nat) {
    forall q: nat, param | q < NUM_PINS && q != pin && PinConfigReg(q, param).Value? ::
      u.reg != PinConfigReg(q, param).value.reg || Disjoint(u.field, PinConfigReg(q, param).value.field)
  }

  lemma {:induction false} PlanOneSpares(pin: nat, param: Param, arg: nat)
    requires pin < NUM_PINS
    ensures forall u | u in PlanOne(pin, param, arg).updates :: Spares(u, pin)
    decreases Rank(param)
  {
    var place := PinConfigReg(pin, param);
    if place.Value? && Prepared(param, place.value.en, arg).Value? {
      var u := Update(place.value.reg, place.value.field, Prepared(param, place.value.en, arg).value);
      forall q: nat, other | q < NUM_PINS && q != pin && PinConfigReg(q, other).Value?
        ensures u.reg != PinConfigReg(q, other).value.reg || Disjoint(u.field, PinConfigReg(q, other).value.field)
      {
        PinsApart(pin, param, q, other);
      }
      if Following(param, arg).Then? {
        PlanOneSpares(pin, Following(param, arg).param, Following(param, arg).arg);
      }
    }
  }

  lemma {:induction false} JoinedSpares(plans: seq<Plan>, i: nat, pin: nat)
    requires i <= |plans| && forall plan | plan in plans :: forall u | u in plan.updates :: Spares(u, pin)
    ensures forall u | u in JoinedFrom(plans, i).updates :: Spares(u, pin)
    decreases |plans| - i
  {
    if i == |plans| {
    } else {
      assert plans[i] in plans;
      JoinedSpares(plans, i + 1, pin);
    }
  }

  lemma PlanAllSpares(pin: nat, configs: seq<Config>)
    requires pin < NUM_PINS
    ensures forall u | u in PlanAll(pin, configs).updates :: Spares(u, pin)
  {
    forall plan | plan in PlansOf(pin, configs) ensures forall u | u in plan.updates :: Spares(u, pin) {
      var k: nat :| k < |configs| && PlansOf(pin, configs)[k] == plan;
      PlanOneSpares(pin, configs[k].param, configs[k].arg);
    }
    JoinedSpares(PlansOf(pin, configs), 0, pin);
  }

  lemma StoredKeepsOtherPins(regs: RegFile, u: Update, pin: nat)
    requires Spares(u, pin)
    ensures OtherPinsKept(regs, Stored(regs, u), pin)
  {
    forall q: nat, param | q < NUM_PINS && q != pin && PinConfigReg(q, param).Value?
      ensures FieldOf(Stored(regs, u), q, param) == FieldOf(regs, q, param)
    {
      var place := PinConfigReg(q, param).value;
      if u.reg == place.reg {
        GetPutOther(regs[u.reg], u.field, u.x, place.field);
      }
    }
  }

  lemma {:induction false} ApplyKeepsOtherPins(regs: RegFile, pin: nat, us: seq<Update>)
    requires forall u | u in us :: Spares(u, pin)
    ensures OtherPinsKept(regs, Apply(regs, us), pin)
  {
    if us == [] {
    } else {
      var before := Apply(regs, us[..|us| - 1]);
      ApplyKeepsOtherPins(regs, pin, us[..|us| - 1]);
      StoredKeepsOtherPins(before, us[|us| - 1], pin);
      OtherPinsStillKept(regs, before, Apply(regs, us), pin);
    }
  }

  /** However far a set or a list got, all other pins answer every get as before. */
  lemma ExecutedKeepsOtherPins(before: RegFile, after: RegFile, pin: nat, plan: Plan, ret: Ending, tries: int)
    requires Executed(before, after, plan, ret, tries) && forall u | u in plan.updates :: Spares(u, pin)
    ensures forall q: nat, param | q < NUM_PINS && q != pin :: GetOne(after, q, param) == GetOne(before, q, param)
  {
    if ret == Failed(Eio) {
      ApplyKeepsOtherPins(before, pin, plan.updates[..tries - 1]);
    } else {
      ApplyKeepsOtherPins(before, pin, plan.updates);
    }
    forall q: nat, param | q < NUM_PINS && q != pin ensures GetOne(after, q, param) == GetOne(before, q, param) {
      KeptFieldsKeepAnswers(before, after, pin, q, param);
    }
  }

  lemma {:induction false} LastJoined(plans: seq<Plan>, i: nat)
    requires i < |plans| && JoinedFrom(plans, i).end.Ok?
    ensures var init, last := JoinedFrom(plans[..|plans| - 1], i), plans[|plans| - 1];
      init.end.Ok? && last.end.Ok? && JoinedFrom(plans, i).updates == init.updates + last.updates
    decreases |plans| - i
  {
    if i < |plans| - 1 {
      LastJoined(plans, i + 1);
    } else {
      assert JoinedFrom(plans, i + 1).updates == [];
    }
  }

  /** After a whole list its last setting reads back. */
  lemma LastReadsBack(regs: RegFile, pin: nat, configs: seq<Config>)
    requires pin < NUM_PINS && configs != [] && PlanAll(pin, configs).end.Ok?
    ensures var last := configs[|configs| - 1];
      GetOne(Apply(regs, PlanAll(pin, configs).updates), pin, last.param) == ReadsBack(last.param, last.arg)
  {
    var plans, last := PlansOf(pin, configs), configs[|configs| - 1];
    var init := JoinedFrom(plans[..|plans| - 1], 0);
    var mid := Apply(regs, init.updates);
    LastJoined(plans, 0);
    ApplyBoth(regs, init.updates, plans[|plans| - 1].updates);
    SetOnePlanned(mid, pin, last.param, last.arg);
    SetThenGet(mid, pin, last.param, last.arg);
  }

  lemma KeptDecodes(before: RegFile, after: RegFile, pin: nat, q: nat)
    requires q < NUM_PINS && q != pin && OtherPinsKept(before, after, pin)
    ensures Decode(after, q) == Decode(before, q)
  {
    forall other | Slot(other) == other && other != Other
      ensures Said(Decode(after, q), other) == Said(Decode(before, q), other)
    {
      if PinConfigReg(q, other).Value? {
        FieldDecodes(before, q, other);
        FieldDecodes(after, q, other);
      } else {
        SlewPlaces(q);
      }
    }
    SaysAll(Decode(after, q), Decode(before, q));
  }

  predicate OthersAsBefore(before: RegFile, after: RegFile, pin: nat) {
    forall q: nat | q < NUM_PINS && q != pin :: Decode(after, q) == Decode(before, q)
  }

  lemma ExecutedSpares(before: RegFile, after: RegFile, pin: nat, plan: Plan, ret: Ending, tries: int)
    requires Executed(before, after, plan, ret, tries) && forall u | u in plan.updates :: Spares(u, pin)
    ensures OthersAsBefore(before, after, pin)
  {
    ApplyKeepsOtherPins(before, pin, if ret == Failed(Eio) then plan.updates[..tries - 1] else plan.updates);
    forall q: nat | q < NUM_PINS && q != pin ensures Decode(after, q) == Decode(before, q) {
      KeptDecodes(before, after, pin, q);
    }
  }

  // What a set leads to, in terms of what the registers say of the pins.
  predicate Outcome(before: RegFile, after: RegFile, pin: nat, param: Param, arg: nat, ret: Ending)
    requires pin < NUM_PINS
  {
    && (ret.Ok? ==> Settable(pin, param) && Decode(after, pin) == Configured(Decode(before, pin), param, arg))
    && (ret == Failed(Einval) <==> param == SlewRate && !HasSlew(pin))
    && (ret == Failed(Enotsupp) <==> param == InputValue || param == Other)
    && OthersAsBefore(before, after, pin)
  }

  lemma OutcomeOfPlan(before: RegFile, after: RegFile, pin: nat, param: Param, arg: nat, ret: Ending, tries: int)
    requires pin < NUM_PINS && Executed(before, after, PlanOne(pin, param, arg), ret, tries)
    ensures Outcome(before, after, pin, param, arg, ret)
  {
    var plan := PlanOne(pin, param, arg);
    SetOnePlanned(before, pin, param, arg);
    SetConfigures(before, pin, param, arg);
    PlanOneSpares(pin, param, arg);
    ExecutedSpares(before, after, pin, plan, ret, tries);
  }

  // ----- Lists -----

  // Whether every configuration of a list is one the pin has.
  predicate AllSettable(pin: nat, configs: seq<Config>) {
    forall k: nat | k < |configs| :: Settable(pin, configs[k].param)
  }

  lemma PlanEnds(pin: nat, param: Param, arg: nat)
    requires pin < NUM_PINS
    ensures var plan := PlanOne(pin, param, arg);
      if Settable(pin, param) then plan.end.Ok?
      else plan == Plan([], Failed(if param == SlewRate then Einval else Enotsupp))
  {
    StoredExactly(pin, param, arg);
    if Settable(pin, param) {
      SetOnePlanned(NO_REGS, pin, param, arg);
      SetConfigures(NO_REGS, pin, param, arg);
    }
  }

  const NO_REGS: RegFile := seq(0x1_0000, _ => ZERO)

  /** A list of settable configurations leads where setting one after the other leads. */
  lemma {:induction false} ListConfigures(regs: RegFile, pin: nat, configs: seq<Config>)
    requires pin < NUM_PINS && AllSettable(pin, configs)
    ensures var plan := PlanAll(pin, configs);
      plan.end.Ok? && Decode(Apply(regs, plan.updates), pin) == ConfiguredAll(Decode(regs, pin), configs)
  {
    if configs == [] {
    } else {
      var init, last := configs[..|configs| - 1], configs[|configs| - 1];
      var plans := PlansOf(pin, configs);
      assert PlansOf(pin, init) == plans[..|plans| - 1];
      ListConfigures(regs, pin, init);
      PlanEnds(pin, last.param, last.arg);
      JoinedLast(plans, 0);
      var mid := Apply(regs, PlanAll(pin, init).updates);
      ApplyBoth(regs, PlanAll(pin, init).updates, plans[|plans| - 1].updates);
      SetOnePlanned(mid, pin, last.param, last.arg);
      SetConfigures(mid, pin, last.param, last.arg);
    }
  }

  // Plans that go through up to the last one.
  lemma {:induction false} JoinedLast(plans: seq<Plan>, i: nat)
    requires i < |plans| && JoinedFrom(plans[..|plans| - 1], i).end.Ok?
    ensures var init, last := JoinedFrom(plans[..|plans| - 1], i), plans[|plans| - 1];
      JoinedFrom(plans, i) == Plan(init.updates + last.updates, last.end)
    decreases |plans| - i
  {
    if i == |plans| - 1 {
      assert JoinedFrom(plans, i + 1) == Plan([], Ok);
    } else {
      JoinedLast(plans, i + 1);
    }
  }

  // The first configuration of a list that the pin does not have.
  predicate FirstRefused(pin: nat, configs: seq<Config>, k: nat) {
    k < |configs| && AllSettable(pin, configs[..k]) && !Settable(pin, configs[k].param)
  }

  lemma {:induction false} JoinedStops(plans: seq<Plan>, i: nat, k: nat)
    requires i <= k < |plans| && plans[k].end.Failed? && plans[k].updates == []
    requires JoinedFrom(plans[..k], i).end.Ok?
    ensures JoinedFrom(plans, i) == Plan(JoinedFrom(plans[..k], i).updates, plans[k].end)
    decreases k - i
  {
    if i == k {
    } else {
      JoinedStops(plans, i + 1, k);
    }
  }

  /** A list with a configuration the pin does not have is set up to the first of them. */
  lemma ListRefused(regs: RegFile, pin: nat, configs: seq<Config>, k: nat)
    requires pin < NUM_PINS && FirstRefused(pin, configs, k)
    ensures var plan := PlanAll(pin, configs);
      && plan.end == Failed(if configs[k].param == SlewRate then Einval else Enotsupp)
      && Decode(Apply(regs, plan.updates), pin) == ConfiguredAll(Decode(regs, pin), configs[..k])
  {
    var plans := PlansOf(pin, configs);
    ListConfigures(regs, pin, configs[..k]);
    PlanEnds(pin, configs[k].param, configs[k].arg);
    assert PlansOf(pin, configs[..k]) == plans[..k];
    JoinedStops(plans, 0, k);
  }

  lemma {:induction false} Refusal(pin: nat, configs: seq<Config>) returns (k: nat)
    ensures if AllSettable(pin, configs) then k == |configs| else FirstRefused(pin, configs, k)
  {
    k := 0;
    while k < |configs| && Settable(pin, configs[k].param)
      invariant k <= |configs| && AllSettable(pin, configs[..k])
    {
      k := k + 1;
    }
  }

  // What a list leads to, unless an update fails: all of it is set, or all up to the first refused one.
  ghost predicate ListOutcome(before: RegFile, after: RegFile, pin: nat, configs: seq<Config>, ret: Ending)
    requires pin < NUM_PINS
  {
    if ret.Ok? then AllSettable(pin, configs) && Decode(after, pin) == ConfiguredAll(Decode(before, pin), configs)
    else ret == Failed(Eio) || exists k: nat | FirstRefused(pin, configs, k) ::
      && ret == Failed(if configs[k].param == SlewRate then Einval else Enotsupp)
      && Decode(after, pin) == ConfiguredAll(Decode(before, pin), configs[..k])
  }

  lemma OutcomeOfList(before: RegFile, after: RegFile, pin: nat, configs: seq<Config>, ret: Ending, tries: int)
    requires pin < NUM_PINS && Executed(before, after, PlanAll(pin, configs), ret, tries)
    ensures ListOutcome(before, after, pin, configs, ret) && OthersAsBefore(before, after, pin)
  {
    PlanAllSpares(pin, configs);
    ExecutedSpares(before, after, pin, PlanAll(pin, configs), ret, tries);
    if ret != Failed(Eio) {
      var k := Refusal(pin, configs);
      if AllSettable(pin, configs) {
        ListConfigures(before, pin, configs);
      } else {
        ListRefused(before, pin, configs, k);
      }
    }
  }

  class PinControl {
    const bus: nat -> bool   // the outcome of each register update, in order
    var attempts: nat
    var regs: RegFile

    constructor (bus: nat -> bool, regs: RegFile)
      ensures this.bus == bus && this.regs == regs
    {
      this.bus, this.attempts, this.regs := bus, 0, regs;
    }

    method UpdateBits(reg: nat, field: Field, x: nat) returns (ok: bool)
      requires reg < 0x1_0000
      modifies `attempts, `regs
      ensures attempts == old(attempts) + 1 && ok == bus(old(attempts))
      ensures regs == if ok then old(regs)[reg := Put(old(regs)[reg], field, x)] else old(regs)
    {
      ok := bus(attempts);
      attempts := attempts + 1;
      if ok {
        regs := regs[reg := Put(regs[reg], field, x)];
      }
    }

    /** The recursive setter tries the planned updates in order and stops at the first that fails. If none does,
        the registers say of the pin what was asked, and in any case of every other pin what they said before. */
    method ConfPinConfigSetOne(pin: nat, param: Param, arg: nat) returns (ret: Ending)
      requires pin < NUM_PINS
      modifies `attempts, `regs
      ensures attempts >= old(attempts)
      ensures Executed(old(regs), regs, PlanOne(pin, param, arg), ret, attempts - old(attempts))
      ensures ret == Failed(Eio) ==> attempts > old(attempts) && !bus(attempts - 1)
      ensures Outcome(old(regs), regs, pin, param, arg, ret)
    {
      ret := TryUpdates(pin, param, arg);
      OutcomeOfPlan(old(regs), regs, pin, param, arg, ret, attempts - old(attempts));
    }

    method TryUpdates(pin: nat, param: Param, arg: nat) returns (ret: Ending)
      requires pin < NUM_PINS
      modifies `attempts, `regs
      ensures attempts >= old(attempts)
      ensures Executed(old(regs), regs, PlanOne(pin, param, arg), ret, attempts - old(attempts))
      ensures ret == Failed(Eio) ==> attempts > old(attempts) && !bus(attempts - 1)
      decreases Rank(param), 1
    {
      var u := PrepareUpdate(pin, param, arg);
      if u.Error? {
        return Failed(u.errno);
      }
      ret := StoreAndGoOn(pin, param, arg, u.value);
    }

    // The register and its field from the table, and the value to store.
    method PrepareUpdate(pin: nat, param: Param, arg: nat) returns (u: Result<Update>)
      requires pin < NUM_PINS
      ensures u == FirstUpdate(pin, param, arg)
    {
      var found := PinConfigReg(pin, param);
      if found.Error? {
        return Error(found.errno);
      }
      var place := found.value;
      var value := ValueToStore(param, place.en, arg);
      if value.Error? {
        return Error(value.errno);
      }
      u := Value(Update(place.reg, place.field, value.value));
    }

    method StoreAndGoOn(pin: nat, param: Param, arg: nat, u: Update) returns (ret: Ending)
      requires pin < NUM_PINS
      modifies `attempts, `regs
      ensures attempts >= old(attempts)
      ensures var rest := PlanNext(pin, Following(param, arg));
        Executed(old(regs), regs, Plan([u] + rest.updates, rest.end), ret, attempts - old(attempts))
      ensures ret == Failed(Eio) ==> attempts > old(attempts) && !bus(attempts - 1)
      decreases Rank(param), 0
    {
      ghost var rest := PlanNext(pin, Following(param, arg));
      var ok := UpdateBits(u.reg, u.field, u.x);
      if !ok {
        FirstFails(regs, u, rest);
        return Failed(Eio);
      }
      ghost var mid, tried := regs, attempts;
      var next := NextToSet(param, arg);
      ret := Ok;
      if next.Then? {
        ret := TryUpdates(pin, next.param, next.arg);
      }
      assert Executed(mid, regs, rest, ret, attempts - tried);
      FirstThenRest(old(regs), regs, u, rest, ret, attempts - tried);
    }

    // The switch before the update: the field value for an argument.
    method ValueToStore(param: Param, en: nat, arg: nat) returns (r: Result<nat>)
      ensures r == Prepared(param, en, arg)
    {
      match param {
        case OpenDrain | PushPull | BiasDisable | BiasPullDown | BiasPullUp =>
          r := Value(en);
        case JitterCompensation | PullStrengthHigh | TxEn | RxEn | OutputEnable | InputEnable | Output =>
          r := Value(if arg != 0 then en else 1 - en % 2);
        case TxId | RxId | SlewRate =>
          r := Value(arg);
        case _ =>
          r := Error(Enotsupp);
      }
    }

    // The switch after the update: a pull sets its strength next, an output its enable, and so on.
    method NextToSet(param: Param, arg: nat) returns (next: Next)
      ensures next == Following(param, arg)
    {
      match param {
        case BiasPullDown | BiasPullUp =>
          next := Then(PullStrengthHigh, if arg >= PULL_1M then 1 else 0);
        case Output =>
          next := Then(OutputEnable, 1);
        case OutputEnable =>
          next := Then(RxEn, 0);
        case TxId =>
          next := Then(TxEn, 1);
        case RxId =>
          next := Then(RxEn, 1);
        case _ =>
          next := Done;
      }
    }

    /** A list of configurations is set in order, up to the first that is refused or the first update that fails.
        The registers then say of the pin what the configurations up to there ask, one after the other, and if it
        got through the last setting reads back. Of all other pins they say what they did, however far it got. */
    method ConfPinConfigSet(pin: nat, configs: seq<Config>) returns (ret: Ending)
      requires pin < NUM_PINS
      modifies `attempts, `regs
      ensures Executed(old(regs), regs, PlanAll(pin, configs), ret, attempts - old(attempts))
      ensures ret == Failed(Eio) ==> attempts > old(attempts) && !bus(attempts - 1)
      ensures ListOutcome(old(regs), regs, pin, configs, ret) && OthersAsBefore(old(regs), regs, pin)
      ensures forall q: nat, param | q < NUM_PINS && q != pin :: GetOne(regs, q, param) == GetOne(old(regs), q, param)
      ensures ret.Ok? && configs != [] ==>
        var last := configs[|configs| - 1]; GetOne(regs, pin, last.param) == ReadsBack(last.param, last.arg)
    {
      ret := SetInOrder(pin, configs, PlansOf(pin, configs));
      OutcomeOfList(old(regs), regs, pin, configs, ret, attempts - old(attempts));
      PlanAllSpares(pin, configs);
      ExecutedKeepsOtherPins(old(regs), regs, pin, PlanAll(pin, configs), ret, attempts - old(attempts));
      if ret.Ok? && configs != [] {
        LastReadsBack(old(regs), pin, configs);
      }
    }

    // The loop of it; `done` are the updates of the configurations that went through.
    method SetInOrder(pin: nat, configs: seq<Config>, ghost plans: seq<Plan>) returns (ret: Ending)
      requires pin < NUM_PINS && plans == PlansOf(pin, configs)
      modifies `attempts, `regs
      ensures Executed(old(regs), regs, JoinedFrom(plans, 0), ret, attempts - old(attempts))
      ensures ret == Failed(Eio) ==> FailedLast()
    {
      ret := Ok;
      ghost var done: seq<Update> := [];
      var i := 0;
      while i < |configs| && ret.Ok?
        invariant i <= |configs| && InList(old(regs), regs, plans, i, done, ret, old(attempts), attempts)
        invariant ret == Failed(Eio) ==> FailedLast()
        decreases |configs| - i, ret.Ok?
      {
        ret := SetListed(pin, configs, i, plans, old(regs), old(attempts), done);
        done := done + plans[i].updates;
        i := i + 1;
      }
      if ret.Ok? {
        PlansDone(old(regs), regs, plans, done, ret, old(attempts), attempts);
      }
    }

    // The last update attempted is one that fails.
    predicate FailedLast()
      reads `attempts
    {
      attempts > 0 && !bus(attempts - 1)
    }

    method SetListed(pin: nat, configs: seq<Config>, i: nat, ghost plans: seq<Plan>, ghost start: RegFile,
                     ghost first: nat, ghost done: seq<Update>)
        returns (ret: Ending)
      requires pin < NUM_PINS && plans == PlansOf(pin, configs) && i < |configs|
      requires InList(start, regs, plans, i, done, Ok, first, attempts)
      modifies `attempts, `regs
      ensures InList(start, regs, plans, i + 1, done + plans[i].updates, ret, first, attempts)
      ensures ret == Failed(Eio) ==> FailedLast()
    {
      ret := TryUpdates(pin, configs[i].param, configs[i].arg);
      assert ret == Failed(Eio) ==> FailedLast();
      PlansStep(start, old(regs), regs, plans, i, done, ret, first, old(attempts), attempts);
    }
  }
}
