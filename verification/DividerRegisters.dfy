/**
 * The divider registers of the CDCE937 clock generator. Everything the program writes to
 * the device is a masked write; what a list of such writes leaves behind is computed here
 * from the writes as a set, whatever their order.
 */
module DividerRegisters {

  type Address = a: int | 0 <= a < 0x80

  type Registers = s: seq<bv8> | |s| == 0x80 witness seq(0x80, i => 0)

  type Output = o: int | 0 <= o < 7

  datatype Write = Write(reg: Address, mask: bv8, value: bv8)

  const REG_CFG1: Address := 0x01
  const REG_Y1_CONTROL: Address := 0x02
  const REG_Y1_DIVIDER: Address := 0x03
  const REG_MUX1: Address := 0x14
  const REG_MUX2: Address := 0x24
  const REG_PDIV4: Address := 0x26
  const REG_MUX3: Address := 0x34
  const REG_PDIV7: Address := 0x37

  // ---- Masked writes ----

  function Part(value: bv8, mask: bv8): bv8 {
    value & mask
  }

  function Or(a: bv8, b: bv8): bv8 {
    a | b
  }

  /** A register of which the masked bits have been replaced. */
  function Merged(current: bv8, mask: bv8, bits: bv8): bv8 {
    (current & !mask) | bits
  }

  function After(regs: Registers, w: Write): Registers {
    regs[w.reg := Merged(regs[w.reg], w.mask, Part(w.value, w.mask))]
  }

  function AfterAll(regs: Registers, ws: seq<Write>): Registers {
    if ws == [] then regs else After(AfterAll(regs, ws[..|ws| - 1]), ws[|ws| - 1])
  }

  /** The bits of a register that some write sets, and what they are set to. */
  function MaskOf(ws: seq<Write>, reg: Address): bv8 {
    if ws == [] then 0
    else
      var w := ws[|ws| - 1];
      var mask := MaskOf(ws[..|ws| - 1], reg);
      if w.reg == reg then Or(mask, w.mask) else mask
  }

  function ValueOf(ws: seq<Write>, reg: Address): bv8 {
    if ws == [] then 0
    else
      var w := ws[|ws| - 1];
      var bits := ValueOf(ws[..|ws| - 1], reg);
      if w.reg == reg then Or(bits, Part(w.value, w.mask)) else bits
  }

  predicate Within(a: bv8, mask: bv8) {
    a & !mask == 0
  }

  /** Two values do not differ in a bit that both masks name. */
  predicate SameWhere(a: bv8, m: bv8, b: bv8, n: bv8) {
    (a ^ b) & m & n == 0
  }

  predicate Agree(v: Write, w: Write) {
    v.reg == w.reg ==> SameWhere(v.value, v.mask, w.value, w.mask)
  }

  predicate AllAgree(ws: seq<Write>) {
    forall v, w :: v in ws && w in ws ==> Agree(v, w)
  }

  // The bit arithmetic that is needed, and nothing else of it.

  lemma Nothing(orig: bv8, w: bv8, k: bv8)
    ensures Within(0, 0) && SameWhere(0, 0, w, k) && Merged(orig, 0, 0) == orig && Part(0, k) == 0
  {
  }

  lemma OrWithin(a: bv8, m: bv8, w: bv8, k: bv8)
    requires Within(a, m)
    ensures Within(Or(a, Part(w, k)), Or(m, k))
  {
  }

  lemma OrIncludes(a: bv8, b: bv8, c: bv8)
    ensures Within(a, Or(b, a)) && (Within(c, b) ==> Within(c, Or(b, a)))
    ensures Within(a, c) && Within(b, c) ==> Within(Or(b, a), c)
  {
  }

  lemma OrSame(a: bv8, m: bv8, v: bv8, n: bv8, w: bv8, k: bv8)
    requires Within(a, m) && SameWhere(a, m, w, k) && SameWhere(v, n, w, k)
    ensures SameWhere(Or(a, Part(v, n)), Or(m, n), w, k)
  {
  }

  lemma MergedStep(orig: bv8, a: bv8, m: bv8, w: bv8, k: bv8)
    requires Within(a, m) && SameWhere(a, m, w, k)
    ensures Merged(Merged(orig, m, a), k, Part(w, k)) == Merged(orig, Or(m, k), Or(a, Part(w, k)))
  {
  }

  lemma MutualInclusion(a: bv8, b: bv8)
    requires Within(a, b) && Within(b, a)
    ensures a == b
  {
  }

  lemma Untouched(orig: bv8, m: bv8, a: bv8, bits: bv8)
    requires Part(m, bits) == 0 && Within(a, m)
    ensures Part(Merged(orig, m, a), bits) == Part(orig, bits)
  {
  }

  lemma OrAvoids(m: bv8, n: bv8, bits: bv8)
    requires Part(m, bits) == 0 && Part(n, bits) == 0
    ensures Part(Or(m, n), bits) == 0
  {
  }

  lemma Present(orig: bv8, m: bv8, a: bv8, w: bv8, k: bv8)
    requires Within(k, m) && Within(Part(w, k), a) && SameWhere(a, m, w, k)
    ensures Part(Merged(orig, m, a), k) == Part(w, k)
  {
  }

  lemma {:induction false} ValueWithinMask(ws: seq<Write>, reg: Address)
    ensures Within(ValueOf(ws, reg), MaskOf(ws, reg))
  {
    hide Within, Or, Part;
    if ws == [] {
      Nothing(0, 0, 0);
    } else {
      var init, w := ws[..|ws| - 1], ws[|ws| - 1];
      ValueWithinMask(init, reg);
      OrWithin(ValueOf(init, reg), MaskOf(init, reg), w.value, w.mask);
    }
  }

  /** What has been set agrees with every write that agrees with all of them. */
  lemma {:induction false} SetBitsAgree(ws: seq<Write>, w: Write)
    requires forall v :: v in ws ==> Agree(v, w)
    ensures SameWhere(ValueOf(ws, w.reg), MaskOf(ws, w.reg), w.value, w.mask)
  {
    hide Within, Or, Part, SameWhere;
    if ws == [] {
      Nothing(0, w.value, w.mask);
    } else {
      var init, v := ws[..|ws| - 1], ws[|ws| - 1];
      SetBitsAgree(init, w);
      ValueWithinMask(init, w.reg);
      assert Agree(v, w);
      if v.reg == w.reg {
        OrSame(ValueOf(init, w.reg), MaskOf(init, w.reg), v.value, v.mask, w.value, w.mask);
      }
    }
  }

  /** Writes that agree leave each register with its untouched bits and the bits they set, in whatever order. */
  lemma {:induction false} AgreeingWrites(regs: Registers, ws: seq<Write>, reg: Address)
    requires AllAgree(ws)
    ensures AfterAll(regs, ws)[reg] == Merged(regs[reg], MaskOf(ws, reg), ValueOf(ws, reg))
  {
    hide Within, Or, Part, SameWhere, Merged;
    if ws == [] {
      Nothing(regs[reg], 0, 0);
    } else {
      var init, w := ws[..|ws| - 1], ws[|ws| - 1];
      assert AllAgree(init);
      AgreeingWrites(regs, init, reg);
      if w.reg == reg {
        SetBitsAgree(init, w);
        ValueWithinMask(init, reg);
        MergedStep(regs[reg], ValueOf(init, reg), MaskOf(init, reg), w.value, w.mask);
      }
    }
  }

  lemma {:induction false} MemberIsIncluded(ws: seq<Write>, w: Write)
    requires w in ws
    ensures Within(w.mask, MaskOf(ws, w.reg))
    ensures Within(Part(w.value, w.mask), ValueOf(ws, w.reg))
  {
    hide Within, Or, Part;
    var init, v := ws[..|ws| - 1], ws[|ws| - 1];
    if w != v {
      assert w in init;
      MemberIsIncluded(init, w);
    }
    OrIncludes(v.mask, MaskOf(init, w.reg), w.mask);
    OrIncludes(Part(v.value, v.mask), ValueOf(init, w.reg), Part(w.value, w.mask));
  }

  lemma ZeroWithin(a: bv8)
    ensures Within(0, a)
  {
  }

  lemma {:induction false} Included(ws: seq<Write>, xs: seq<Write>, reg: Address)
    requires forall w :: w in ws ==> w in xs
    ensures Within(MaskOf(ws, reg), MaskOf(xs, reg))
    ensures Within(ValueOf(ws, reg), ValueOf(xs, reg))
  {
    hide Within, Or, Part;
    if ws == [] {
      ZeroWithin(MaskOf(xs, reg));
      ZeroWithin(ValueOf(xs, reg));
    } else {
      var init, w := ws[..|ws| - 1], ws[|ws| - 1];
      Included(init, xs, reg);
      assert w in ws;
      MemberIsIncluded(xs, w);
      OrIncludes(w.mask, MaskOf(init, reg), MaskOf(xs, reg));
      OrIncludes(Part(w.value, w.mask), ValueOf(init, reg), ValueOf(xs, reg));
    }
  }

  /** Order and repetition do not matter: two lists of the same agreeing writes leave the same registers. */
  lemma SameWritesSameRegisters(regs: Registers, ws: seq<Write>, xs: seq<Write>)
    requires AllAgree(ws)
    requires forall w :: w in ws <==> w in xs
    ensures AfterAll(regs, ws) == AfterAll(regs, xs)
  {
    hide Within, Or, Part, SameWhere, Merged, MaskOf, ValueOf, AfterAll;
    forall reg: Address ensures AfterAll(regs, ws)[reg] == AfterAll(regs, xs)[reg] {
      SameWritesSameRegister(regs, ws, xs, reg);
    }
    assert forall i :: 0 <= i < 0x80 ==> AfterAll(regs, ws)[i] == AfterAll(regs, xs)[i];
  }

  lemma SameWritesSameRegister(regs: Registers, ws: seq<Write>, xs: seq<Write>, reg: Address)
    requires AllAgree(ws)
    requires forall w :: w in ws <==> w in xs
    ensures AfterAll(regs, ws)[reg] == AfterAll(regs, xs)[reg]
  {
    hide Within, Or, Part, SameWhere, Merged, MaskOf, ValueOf, AfterAll;
    assert AllAgree(xs);
    AgreeingWrites(regs, ws, reg);
    AgreeingWrites(regs, xs, reg);
    Included(ws, xs, reg);
    Included(xs, ws, reg);
    MutualInclusion(MaskOf(ws, reg), MaskOf(xs, reg));
    MutualInclusion(ValueOf(ws, reg), ValueOf(xs, reg));
  }

  lemma {:induction false} AfterAllAppend(regs: Registers, ws: seq<Write>, xs: seq<Write>)
    ensures AfterAll(regs, ws + xs) == AfterAll(AfterAll(regs, ws), xs)
  {
    var all := ws + xs;
    if xs == [] {
      assert all == ws;
    } else {
      assert all[..|all| - 1] == ws + xs[..|xs| - 1];
      AfterAllAppend(regs, ws, xs[..|xs| - 1]);
    }
  }

  lemma OneWrite(regs: Registers, w: Write)
    ensures AfterAll(regs, [w]) == After(regs, w)
  {
    assert [w][..0] == [];
  }

  lemma TwoWrites(regs: Registers, v: Write, w: Write)
    ensures AfterAll(regs, [v, w]) == After(After(regs, v), w)
  {
    OneWrite(regs, v);
    assert [v, w][..1] == [v];
  }

  // ---- What each output is given ----

  const BYPASS := Write(REG_CFG1, 0x1C, 0x08)

  function EnableWrite(o: Output): Write {
    if o == 0 then Write(REG_Y1_CONTROL, 0x3C, 0x3C)
    else if o <= 2 then Write(REG_MUX1, 0x0F, 0x0F)
    else if o <= 4 then Write(REG_MUX2, 0x0F, 0x0F)
    else Write(REG_MUX3, 0x0F, 0x0F)
  }

  function RouteWrite(o: Output): Write {
    match o
    case 0 => Write(REG_Y1_CONTROL, 0x80, 0x00)
    case 1 => Write(REG_MUX1, 0xC0, 0x80)
    case 2 => Write(REG_MUX1, 0xB0, 0x80)
    case 3 => Write(REG_MUX2, 0xC0, 0xC0)
    case 4 => Write(REG_MUX2, 0xB0, 0x90)
    case 5 => Write(REG_MUX3, 0xC0, 0x80)
    case 6 => Write(REG_MUX3, 0xB0, 0xA0)
  }

  function High(divider: bv16): bv8 {
    ((divider >> 8) & 0x03) as bv8
  }

  function Low(divider: bv16): bv8 {
    (divider & 0xFF) as bv8
  }

  function Seven(divider: bv16): bv8 {
    (divider & 0x7F) as bv8
  }

  /** The dividers that a pair of registers and a single register hold. */
  function TenBits(control: bv8, low: bv8): bv16 {
    (((control & 0x03) as bv16) << 8) | (low as bv16)
  }

  function SevenBits(r: bv8): bv16 {
    (r & 0x7F) as bv16
  }

  /** Y1 to Y3 share a ten-bit divider in two registers, Y4 to Y6 share a seven-bit one, Y7 has its own. */
  function DividerWrites(o: Output, divider: bv16): seq<Write> {
    if o <= 2 then
      [Write(REG_Y1_CONTROL, 0x03, High(divider)), Write(REG_Y1_DIVIDER, 0xFF, Low(divider))]
    else
      [Write(if o <= 5 then REG_PDIV4 else REG_PDIV7, 0x7F, Seven(divider))]
  }

  function OutputWrites(o: Output, divider: bv16): seq<Write> {
    [EnableWrite(o), RouteWrite(o)] + DividerWrites(o, divider)
  }

  function ReadDivider(regs: Registers, o: Output): bv16 {
    if o <= 2 then TenBits(regs[REG_Y1_CONTROL], regs[REG_Y1_DIVIDER])
    else SevenBits(regs[if o <= 5 then REG_PDIV4 else REG_PDIV7])
  }

  predicate SameDivider(o: Output, p: Output) {
    (o <= 2 && p <= 2) || (3 <= o <= 5 && 3 <= p <= 5) || (o == 6 && p == 6)
  }

  /** The outputs to be written, each with its divider. */
  datatype Setting = Setting(output: Output, divider: bv16)

  function SettingsWrites(settings: seq<Setting>): seq<Write> {
    if settings == [] then [BYPASS]
    else
      var last := settings[|settings| - 1];
      SettingsWrites(settings[..|settings| - 1]) + OutputWrites(last.output, last.divider)
  }

  /** What the device holds after the outputs have been written one after the other. */
  function Written(regs: Registers, settings: seq<Setting>): Registers {
    AfterAll(regs, SettingsWrites(settings))
  }

  /** Outputs that share a divider are given the same one. */
  predicate Consistent(settings: seq<Setting>) {
    forall s, t :: s in settings && t in settings && SameDivider(s.output, t.output) ==> s.divider == t.divider
  }

  predicate InRange(o: Output, divider: bv16) {
    0 < divider <= if o <= 2 then 1023 else 127
  }

  predicate AllInRange(settings: seq<Setting>) {
    forall s :: s in settings ==> InRange(s.output, s.divider)
  }

  ghost predicate Occurs(w: Write, settings: seq<Setting>) {
    w == BYPASS || exists s :: s in settings && w in OutputWrites(s.output, s.divider)
  }

  lemma {:induction false} WritesOccur(settings: seq<Setting>, w: Write)
    ensures w in SettingsWrites(settings) <==> Occurs(w, settings)
  {
    if settings != [] {
      var init, last := settings[..|settings| - 1], settings[|settings| - 1];
      WritesOccur(init, w);
      if Occurs(w, settings) && w != BYPASS {
        var s :| s in settings && w in OutputWrites(s.output, s.divider);
        assert s == last || s in init;
      }
    }
  }

  /** What a register holds once every output that it serves has been written. */
  function Target(reg: Address, divider: bv16): bv8 {
    if reg == REG_CFG1 then 0x08
    else if reg == REG_Y1_CONTROL then 0x3C | High(divider)
    else if reg == REG_Y1_DIVIDER then Low(divider)
    else if reg == REG_MUX1 then 0x8F
    else if reg == REG_MUX2 then 0xDF
    else if reg == REG_MUX3 then 0xAF
    else Seven(divider)
  }

  function ValueBits(w: Write): bv8 {
    Part(w.value, w.mask)
  }

  lemma FollowsTarget(s: Setting, w: Write)
    requires w in OutputWrites(s.output, s.divider)
    ensures Part(Target(w.reg, s.divider), w.mask) == ValueBits(w)
    ensures w.reg != REG_CFG1
    ensures w.reg == REG_Y1_CONTROL || w.reg == REG_Y1_DIVIDER ==> s.output <= 2
    ensures w.reg == REG_PDIV4 ==> 3 <= s.output <= 5
    ensures w.reg == REG_PDIV7 ==> s.output == 6
    ensures w.reg in {REG_Y1_CONTROL, REG_Y1_DIVIDER, REG_PDIV4, REG_PDIV7, REG_MUX1, REG_MUX2, REG_MUX3}
  {
    hide Part, Target, EnableWrite, RouteWrite, DividerWrites;
    EnableFollowsTarget(s);
    RouteFollowsTarget(s);
    DividerFollowsTarget(s);
    assert w == EnableWrite(s.output) || w == RouteWrite(s.output) || w in DividerWrites(s.output, s.divider);
  }

  lemma EnableFollowsTarget(s: Setting)
    ensures var w := EnableWrite(s.output);
      && Part(Target(w.reg, s.divider), w.mask) == ValueBits(w)
      && (w.reg in {REG_MUX1, REG_MUX2, REG_MUX3} || (w.reg == REG_Y1_CONTROL && s.output <= 2))
  {
  }

  lemma RouteFollowsTarget(s: Setting)
    ensures var w := RouteWrite(s.output);
      && Part(Target(w.reg, s.divider), w.mask) == ValueBits(w)
      && (w.reg in {REG_MUX1, REG_MUX2, REG_MUX3} || (w.reg == REG_Y1_CONTROL && s.output <= 2))
  {
  }

  lemma DividerFollowsTarget(s: Setting)
    ensures forall w :: w in DividerWrites(s.output, s.divider) ==>
      && Part(Target(w.reg, s.divider), w.mask) == ValueBits(w)
      && (|| (s.output <= 2 && w.reg in {REG_Y1_CONTROL, REG_Y1_DIVIDER})
          || (3 <= s.output <= 5 && w.reg == REG_PDIV4) || (s.output == 6 && w.reg == REG_PDIV7))
  {
  }

  lemma SameTarget(v: bv8, m: bv8, w: bv8, k: bv8, target: bv8)
    requires Part(target, m) == Part(v, m) && Part(target, k) == Part(w, k)
    ensures SameWhere(v, m, w, k)
  {
  }

  /** Two outputs never disagree about a bit, unless they share a divider and are given different ones. */
  lemma OutputsAgree(s: Setting, t: Setting, v: Write, w: Write)
    requires SameDivider(s.output, t.output) ==> s.divider == t.divider
    requires v in OutputWrites(s.output, s.divider) && w in OutputWrites(t.output, t.divider)
    ensures Agree(v, w) && Agree(v, BYPASS) && Agree(BYPASS, w)
  {
    hide Part, SameWhere, OutputWrites, High, Low, Seven;
    FollowsTarget(s, v);
    FollowsTarget(t, w);
    if v.reg == w.reg {
      assert Target(v.reg, s.divider) == Target(v.reg, t.divider);
      SameTarget(v.value, v.mask, w.value, w.mask, Target(v.reg, s.divider));
    }
  }

  lemma ConsistentAgree(settings: seq<Setting>)
    requires Consistent(settings)
    ensures AllAgree(SettingsWrites(settings))
  {
    var ws := SettingsWrites(settings);
    forall v, w | v in ws && w in ws ensures Agree(v, w) {
      WritesOccur(settings, v);
      WritesOccur(settings, w);
      if v != BYPASS && w != BYPASS {
        var s :| s in settings && v in OutputWrites(s.output, s.divider);
        var t :| t in settings && w in OutputWrites(t.output, t.divider);
        OutputsAgree(s, t, v, w);
      } else if v != BYPASS {
        var s :| s in settings && v in OutputWrites(s.output, s.divider);
        OutputsAgree(s, s, v, v);
      } else if w != BYPASS {
        var t :| t in settings && w in OutputWrites(t.output, t.divider);
        OutputsAgree(t, t, w, w);
      }
    }
  }

  /** Writing the same outputs in another order, or some of them again, leaves the same registers. */
  lemma OrderDoesNotMatter(regs: Registers, settings: seq<Setting>, others: seq<Setting>)
    requires Consistent(settings)
    requires forall s :: s in settings <==> s in others
    ensures Written(regs, settings) == Written(regs, others)
  {
    ConsistentAgree(settings);
    forall w ensures w in SettingsWrites(settings) <==> w in SettingsWrites(others) {
      WritesOccur(settings, w);
      WritesOccur(others, w);
    }
    SameWritesSameRegisters(regs, SettingsWrites(settings), SettingsWrites(others));
  }

  /** Doing all of it a second time changes nothing. */
  lemma RepeatingChangesNothing(regs: Registers, settings: seq<Setting>)
    requires Consistent(settings)
    ensures Written(Written(regs, settings), settings) == Written(regs, settings)
  {
    var ws := SettingsWrites(settings);
    ConsistentAgree(settings);
    AfterAllAppend(regs, ws, ws);
    SameWritesSameRegisters(regs, ws, ws + ws);
  }

  /** Bits that none of the writes names stay as they were. */
  lemma UnrelatedBitsStay(regs: Registers, settings: seq<Setting>, reg: Address, bits: bv8)
    requires Consistent(settings)
    requires forall w :: Occurs(w, settings) && w.reg == reg ==> w.mask & bits == 0
    ensures Written(regs, settings)[reg] & bits == regs[reg] & bits
  {
    var ws := SettingsWrites(settings);
    ConsistentAgree(settings);
    AgreeingWrites(regs, ws, reg);
    forall w | w in ws && w.reg == reg ensures Part(w.mask, bits) == 0 {
      WritesOccur(settings, w);
    }
    MaskAvoids(ws, reg, bits);
    ValueWithinMask(ws, reg);
    Untouched(regs[reg], MaskOf(ws, reg), ValueOf(ws, reg), bits);
    assert Part(Written(regs, settings)[reg], bits) == Part(regs[reg], bits);
  }

  lemma {:induction false} MaskAvoids(ws: seq<Write>, reg: Address, bits: bv8)
    requires forall w :: w in ws && w.reg == reg ==> Part(w.mask, bits) == 0
    ensures Part(MaskOf(ws, reg), bits) == 0
  {
    hide Part, Or;
    if ws == [] {
      Nothing(0, 0, bits);
    } else {
      var init, w := ws[..|ws| - 1], ws[|ws| - 1];
      MaskAvoids(init, reg, bits);
      assert w in ws;
      if w.reg == reg {
        OrAvoids(MaskOf(init, reg), w.mask, bits);
      }
    }
  }

  /** The bits named by a write hold its value afterwards. */
  lemma WriteIsThere(regs: Registers, settings: seq<Setting>, w: Write)
    requires Consistent(settings) && Occurs(w, settings)
    ensures Part(Written(regs, settings)[w.reg], w.mask) == Part(w.value, w.mask)
  {
    hide Within, Or, Part, SameWhere, Merged, MaskOf, ValueOf, AfterAll, SettingsWrites;
    var ws := SettingsWrites(settings);
    ConsistentAgree(settings);
    AgreeingWrites(regs, ws, w.reg);
    WritesOccur(settings, w);
    MemberIsIncluded(ws, w);
    SetBitsAgree(ws, w);
    Present(regs[w.reg], MaskOf(ws, w.reg), ValueOf(ws, w.reg), w.value, w.mask);
  }

  /**
   * Which divider an output has afterwards: the one given to it or to an output it shares
   * its divider with, and otherwise the one it had.
   */
  lemma DividersReadBack(regs: Registers, settings: seq<Setting>, o: Output)
    requires Consistent(settings) && AllInRange(settings)
    ensures forall s :: s in settings && SameDivider(s.output, o) ==> ReadDivider(Written(regs, settings), o) == s.divider
    ensures (forall s :: s in settings ==> !SameDivider(s.output, o)) ==> ReadDivider(Written(regs, settings), o) == ReadDivider(regs, o)
  {
    forall s | s in settings && SameDivider(s.output, o)
      ensures ReadDivider(Written(regs, settings), o) == s.divider
    {
      GivenIsRead(regs, settings, s, o);
    }
    if forall s :: s in settings ==> !SameDivider(s.output, o) {
      NotGivenIsKept(regs, settings, o);
    }
  }

  lemma GivenIsRead(regs: Registers, settings: seq<Setting>, s: Setting, o: Output)
    requires Consistent(settings) && s in settings && InRange(s.output, s.divider) && SameDivider(s.output, o)
    ensures ReadDivider(Written(regs, settings), o) == s.divider
  {
    hide Part, High, Low, Seven, TenBits, SevenBits, Written, EnableWrite, RouteWrite;
    var ws := DividerWrites(s.output, s.divider);
    var all := OutputWrites(s.output, s.divider);
    assert all[2] == ws[0] && Occurs(ws[0], settings);
    WriteIsThere(regs, settings, ws[0]);
    var after := Written(regs, settings);
    if s.output <= 2 {
      assert all[3] == ws[1] && Occurs(ws[1], settings);
      WriteIsThere(regs, settings, ws[1]);
      ReadsTenBits(after[REG_Y1_CONTROL], after[REG_Y1_DIVIDER], s.divider);
    } else {
      ReadsSevenBits(after[ws[0].reg], s.divider);
    }
  }

  lemma ReadsTenBits(control: bv8, low: bv8, divider: bv16)
    requires divider <= 1023
    requires Part(control, 0x03) == Part(High(divider), 0x03) && Part(low, 0xFF) == Part(Low(divider), 0xFF)
    ensures TenBits(control, low) == divider
  {
  }

  lemma ReadsSevenBits(r: bv8, divider: bv16)
    requires divider <= 127 && Part(r, 0x7F) == Part(Seven(divider), 0x7F)
    ensures SevenBits(r) == divider
  {
  }

  lemma NotGivenIsKept(regs: Registers, settings: seq<Setting>, o: Output)
    requires Consistent(settings)
    requires forall s :: s in settings ==> !SameDivider(s.output, o)
    ensures ReadDivider(Written(regs, settings), o) == ReadDivider(regs, o)
  {
    hide Written;
    forall reg: Address, bits: bv8 | (reg, bits) in DividerBits(o)
      ensures Written(regs, settings)[reg] & bits == regs[reg] & bits
    {
      forall w | Occurs(w, settings) ensures w.reg != reg {
        if w != BYPASS {
          var s :| s in settings && w in OutputWrites(s.output, s.divider);
          AvoidsDividerOf(s, w, o, reg, bits);
        }
      }
      UnrelatedBitsStay(regs, settings, reg, bits);
    }
    if o <= 2 {
      assert (REG_Y1_CONTROL, 0x03) in DividerBits(o) && (REG_Y1_DIVIDER, 0xFF) in DividerBits(o);
      AllBits(Written(regs, settings)[REG_Y1_DIVIDER], regs[REG_Y1_DIVIDER]);
    } else {
      var reg := if o <= 5 then REG_PDIV4 else REG_PDIV7;
      assert (reg, 0x7F) in DividerBits(o);
    }
  }

  /** Where the divider of an output is kept. */
  function DividerBits(o: Output): set<(Address, bv8)> {
    if o <= 2 then {(REG_Y1_CONTROL, 0x03), (REG_Y1_DIVIDER, 0xFF)}
    else {(if o <= 5 then REG_PDIV4 else REG_PDIV7, 0x7F)}
  }

  lemma AvoidsDividerOf(s: Setting, w: Write, o: Output, reg: Address, bits: bv8)
    requires !SameDivider(s.output, o) && w in OutputWrites(s.output, s.divider)
    requires (reg, bits) in DividerBits(o)
    ensures w.reg != reg
  {
    FollowsTarget(s, w);
  }

  lemma AllBits(a: bv8, b: bv8)
    requires a & 0xFF == b & 0xFF
    ensures a == b
  {
  }
}
