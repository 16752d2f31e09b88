/**
 * The RF front-end switch of the Nucleo WL55JC1 board (package `radio`,
 * directory `rfswitch`).
 *
 * The radio driver asks the switch for one of three modes, receive (RX),
 * transmit at low power (TX_LP) or transmit at high power (TX_HP), and the
 * switch drives three control lines of the front end: FE_CTRL1 on pin PC4,
 * FE_CTRL2 on pin PC5 and FE_CTRL3 on pin PC3.
 *
 * The mode codes are constants of the sx126x driver, whose values are not part
 * of this model: they are carried as a `ModeCodes` value. Go rejects a switch
 * whose constant cases repeat, so the three codes are distinct.
 */
module RfSwitch {
  import opened Wrappers

  datatype RadioMode = Rx | TxLowPower | TxHighPower

  /** The driver's integer codes for the three modes. */
  datatype ModeCodes = ModeCodes(rx: int, txLp: int, txHp: int) {
    predicate Distinct() {
      rx != txLp && rx != txHp && txLp != txHp
    }

    /** The code the driver passes for mode `m`. */
    function CodeOf(m: RadioMode): int {
      match m
      case Rx => rx
      case TxLowPower => txLp
      case TxHighPower => txHp
    }
  }

  /** The levels of PC4, PC5 and PC3 (true is high, "ON"). */
  datatype Levels = Levels(pc4: bool, pc5: bool, pc3: bool)

  datatype ControlLine = FeCtrl1 | FeCtrl2 | FeCtrl3

  /** The level a control line has in `l`: FE_CTRL1 is PC4, FE_CTRL2 is PC5, FE_CTRL3 is PC3. */
  function LineLevel(l: Levels, line: ControlLine): bool {
    match line
    case FeCtrl1 => l.pc4
    case FeCtrl2 => l.pc5
    case FeCtrl3 => l.pc3
  }

  /**
   * The board's documented truth table: one row per control line (FE_CTRL1,
   * FE_CTRL2, FE_CTRL3), one column per mode in the order Tx_HP, Tx_LP, RX.
   */
  const DocumentedTable: seq<seq<bool>> :=
    [ [false, true, true ],
      [true,  true, false],
      [true,  true, true ] ]

  /** The documented level of `line` in mode `m`, read from the table. */
  function Documented(line: ControlLine, m: RadioMode): (on: bool)
    ensures line == FeCtrl1 ==> (on <==> m != TxHighPower)
    ensures line == FeCtrl2 ==> (on <==> m != Rx)
    ensures line == FeCtrl3 ==> on
  {
    var row := match line case FeCtrl1 => 0 case FeCtrl2 => 1 case FeCtrl3 => 2;
    var column := match m case TxHighPower => 0 case TxLowPower => 1 case Rx => 2;
    DocumentedTable[row][column]
  }

  /** Which mode a code selects, trying the cases in the order the switch lists them. */
  function Recognise(codes: ModeCodes, mode: int): (r: Option<RadioMode>)
    ensures r.None? <==> mode != codes.rx && mode != codes.txLp && mode != codes.txHp
    ensures codes.Distinct() ==> forall m :: r == Some(m) <==> mode == codes.CodeOf(m)
  {
    if mode == codes.rx then Some(Rx)
    else if mode == codes.txLp then Some(TxLowPower)
    else if mode == codes.txHp then Some(TxHighPower)
    else None
  }

  /** The levels each case of the switch sets. */
  function SwitchLevels(m: RadioMode): (l: Levels)
    ensures forall line :: LineLevel(l, line) == Documented(line, m)
    ensures l.pc3
  {
    match m
    case Rx => Levels(true, false, true)
    case TxLowPower => Levels(true, true, true)
    case TxHighPower => Levels(false, true, true)
  }

  /** Reads the mode back from the pins; None for a combination no mode sets. */
  function ModeOfLevels(l: Levels): (r: Option<RadioMode>)
    ensures r.Some? ==> l.pc3 && (l.pc4 || l.pc5)
  {
    if !l.pc3 then None
    else if l.pc4 && !l.pc5 then Some(Rx)
    else if l.pc4 && l.pc5 then Some(TxLowPower)
    else if l.pc5 then Some(TxHighPower)
    else None
  }

  /** The three modes give pairwise distinct pin triples, so the mode can be read back from the pins. */
  lemma ModeRecoverable(m: RadioMode, l: Levels)
    ensures ModeOfLevels(SwitchLevels(m)) == Some(m)
    ensures ModeOfLevels(l) == Some(m) <==> l == SwitchLevels(m)
  {
    match m
    case Rx =>
    case TxLowPower =>
    case TxHighPower =>
  }

  lemma SwitchLevelsInjective(m1: RadioMode, m2: RadioMode)
    ensures SwitchLevels(m1) == SwitchLevels(m2) <==> m1 == m2
  {
    ModeRecoverable(m1, SwitchLevels(m2));
  }

  /** The pins after one call with code `mode`, from pins `l`: unchanged for an unknown code. */
  function Apply(codes: ModeCodes, mode: int, l: Levels): (r: Levels)
    ensures Recognise(codes, mode).None? ==> r == l
    ensures Recognise(codes, mode).Some? ==> ModeOfLevels(r) == Recognise(codes, mode) && r.pc3
  {
    match Recognise(codes, mode)
    case Some(m) => ModeRecoverable(m, l); SwitchLevels(m)
    case None => l
  }

  /** A recognised code puts the pins in the documented state of its mode, whatever they were. */
  lemma ApplyMode(codes: ModeCodes, m: RadioMode, l: Levels)
    requires codes.Distinct()
    ensures ModeOfLevels(Apply(codes, codes.CodeOf(m), l)) == Some(m)
    ensures forall line :: LineLevel(Apply(codes, codes.CodeOf(m), l), line) == Documented(line, m)
  {
    assert Recognise(codes, codes.CodeOf(m)) == Some(m);
    ModeRecoverable(m, l);
  }

  /** Setting a mode twice is setting it once, and the last recognised code wins. */
  lemma ApplyLastWins(codes: ModeCodes, first: int, second: int, l: Levels)
    requires Recognise(codes, second).Some? || first == second
    ensures Apply(codes, second, Apply(codes, first, l)) == Apply(codes, second, l)
  {
  }

  /**
   * The switch object. In Go it is an empty struct whose methods write the
   * board's global pins; here the pins it writes are its fields.
   */
  class CustomSwitch {
    const codes: ModeCodes

    /** Output levels: PC4 (FE_CTRL1), PC5 (FE_CTRL2), PC3 (FE_CTRL3). */
    var pc4: bool
    var pc5: bool
    var pc3: bool

    /** Whether each pin has been configured as an output. */
    var pc4Output: bool
    var pc5Output: bool
    var pc3Output: bool

    function Pins(): Levels
      reads this
    {
      Levels(pc4, pc5, pc3)
    }

    predicate Configured()
      reads this
    {
      pc4Output && pc5Output && pc3Output
    }

    /** A switch over pins at levels `initial`, not yet configured as outputs. */
    constructor (codes: ModeCodes, initial: Levels)
      requires codes.Distinct()
      ensures this.codes == codes && Pins() == initial
      ensures !pc4Output && !pc5Output && !pc3Output
    {
      this.codes := codes;
      pc4, pc5, pc3 := initial.pc4, initial.pc5, initial.pc3;
      pc4Output, pc5Output, pc3Output := false, false, false;
    }

    /** InitRFSwitch: configures PC4, PC5 and PC3 as outputs and sets no level. */
    method InitRFSwitch()
      modifies this`pc4Output, this`pc5Output, this`pc3Output
      ensures Configured()
      ensures Pins() == old(Pins())
    {
      pc4Output := true;
      pc5Output := true;
      pc3Output := true;
    }

    /**
     * SetRfSwitchMode: drives the pins for a recognised mode code and leaves
     * them alone for any other; Go's error result is always nil (None).
     */
    method SetRfSwitchMode(mode: int) returns (err: Option<string>)
      requires codes.Distinct()
      modifies this`pc4, this`pc5, this`pc3
      ensures err == None
      ensures mode == codes.rx ==> pc4 && !pc5 && pc3
      ensures mode == codes.txLp ==> pc4 && pc5 && pc3
      ensures mode == codes.txHp ==> !pc4 && pc5 && pc3
      ensures Recognise(codes, mode).None? ==> Pins() == old(Pins())
      ensures Pins() == Apply(codes, mode, old(Pins()))
    {
      if mode == codes.rx {
        pc4 := true;
        pc5 := false;
        pc3 := true;
      } else if mode == codes.txLp {
        pc4 := true;
        pc5 := true;
        pc3 := true;
      } else if mode == codes.txHp {
        pc4 := false;
        pc5 := true;
        pc3 := true;
      }
      err := None;
    }
  }
}
