/** Setting, reading, saving and restoring the dividers of the acquisition clock. */
module Dividers {
  import opened Options
  import opened DividerRegisters
  import opened DividerState

  // ---- Integers and register values ----

  lemma Increment(b: bv16)
    requires b < 1023
    ensures (b + 1) as int == b as int + 1
  {
  }

  function FromInt(d: nat): (b: bv16)
    requires d <= 1023
    ensures b as int == d
  {
    if d == 0 then 0 else
      var b := FromInt(d - 1);
      Increment(b);
      b + 1
  }

  /** The bits of a divider; a valid one fits. */
  function AsBits(divider: int): bv16 {
    if 0 <= divider < 0x1_0000 then divider as bv16 else 0
  }

  /** A divider survives being handed to the registers as a 16-bit value. */
  lemma DividerAsBits(output: int, divider: int)
    requires ValidDivider(output, divider)
    ensures InRange(output, AsBits(divider)) && AsBits(divider) as int == divider
  {
    var b := FromInt(divider);
    assert divider as bv16 == b;
    InRangeBits(output, divider);
  }

  lemma InRangeBits(output: int, divider: int)
    requires ValidDivider(output, divider)
    ensures InRange(output, AsBits(divider))
  {
  }

  function DividersOf(regs: Registers): (ds: seq<int>)
    ensures |ds| == OUTPUT_COUNT
  {
    seq(OUTPUT_COUNT, o requires 0 <= o < OUTPUT_COUNT => ReadDivider(regs, o) as int)
  }

  lemma ReadsAreLimited(regs: Registers, o: Output)
    ensures 0 <= ReadDivider(regs, o) as int <= DividerLimit(o)
    ensures AsBits(ReadDivider(regs, o) as int) == ReadDivider(regs, o)
  {
    var b := ReadDivider(regs, o);
    if o <= 2 {
      TenBitsAreLimited(regs[REG_Y1_CONTROL], regs[REG_Y1_DIVIDER]);
    } else {
      SevenBitsAreLimited(regs[if o <= 5 then REG_PDIV4 else REG_PDIV7]);
    }
    LimitToInt(b);
    BackToBits(b);
  }

  lemma TenBitsAreLimited(control: bv8, low: bv8)
    ensures TenBits(control, low) <= 1023
  {
  }

  lemma SevenBitsAreLimited(r: bv8)
    ensures SevenBits(r) <= 127
  {
  }

  lemma LimitToInt(b: bv16)
    ensures b <= 1023 ==> 0 <= b as int <= 1023
    ensures b <= 127 ==> 0 <= b as int <= 127
  {
  }

  lemma BackToBits(b: bv16)
    requires b <= 1023
    ensures AsBits(b as int) == b
  {
  }

  // ---- The device ----

  /** The register of a seven-bit divider. */
  function DividerRegister(o: Output): (reg: Address)
    requires 3 <= o
    ensures reg == if o <= 5 then REG_PDIV4 else REG_PDIV7
  {
    match o
    case 3 => 0x26
    case 4 => 0x26
    case 5 => 0x26
    case 6 => 0x37
  }

  class Device {
    var registers: Registers

    constructor (registers: Registers)
      ensures this.registers == registers
    {
      this.registers := registers;
    }

    method ByteRead(reg: Address) returns (value: bv8)
      ensures value == registers[reg]
    {
      value := registers[reg];
    }

    method ByteWrite(reg: Address, value: bv8)
      modifies this
      ensures registers == old(registers)[reg := value]
    {
      registers := registers[reg := value];
    }

    method WriteMaskedRegister(w: Write)
      modifies this
      ensures registers == After(old(registers), w)
    {
      var current := ByteRead(w.reg);
      var updated := (current & !w.mask) | (w.value & w.mask);
      if updated == current {
        assert registers[w.reg := registers[w.reg]] == registers;
        return;
      }
      ByteWrite(w.reg, updated);
    }

    method ReadDividerRegister(o: Output) returns (divider: bv16)
      ensures divider == ReadDivider(registers, o)
    {
      if o <= 2 {
        var reg02 := ByteRead(0x02);
        var reg03 := ByteRead(0x03);
        return (((reg02 & 0x03) as bv16) << 8) | (reg03 as bv16);
      }
      var value := ByteRead(DividerRegister(o));
      return (value & 0x7F) as bv16;
    }

    method WriteDividerRegister(o: Output, divider: bv16)
      modifies this
      ensures registers == AfterAll(old(registers), DividerWrites(o, divider))
    {
      ghost var ws := DividerWrites(o, divider);
      if o <= 2 {
        var reg02 := ByteRead(0x02);
        reg02 := (reg02 & 0xFC) | (((divider >> 8) & 0x03) as bv8);
        ByteWrite(0x02, reg02);
        ByteWrite(0x03, (divider & 0xFF) as bv8);
        ControlBits(old(registers)[0x02], divider);
        LowBits(old(registers)[0x03], divider);
        TwoWrites(old(registers), ws[0], ws[1]);
        return;
      }
      var reg := DividerRegister(o);
      var oldValue := ByteRead(reg);
      ByteWrite(reg, (oldValue & 0x80) | ((divider & 0x7F) as bv8));
      SevenBitsKeepTop(oldValue, divider);
      OneWrite(old(registers), ws[0]);
    }

    method ForceOutputEnabled(o: Output)
      modifies this
      ensures registers == After(old(registers), EnableWrite(o))
    {
      match o {
        case 0 => WriteMaskedRegister(Write(REG_Y1_CONTROL, 0x3C, 0x3C));
        case 1 => WriteMaskedRegister(Write(REG_MUX1, 0x0F, 0x0F));
        case 2 => WriteMaskedRegister(Write(REG_MUX1, 0x0F, 0x0F));
        case 3 => WriteMaskedRegister(Write(REG_MUX2, 0x0F, 0x0F));
        case 4 => WriteMaskedRegister(Write(REG_MUX2, 0x0F, 0x0F));
        case 5 => WriteMaskedRegister(Write(REG_MUX3, 0x0F, 0x0F));
        case 6 => WriteMaskedRegister(Write(REG_MUX3, 0x0F, 0x0F));
      }
    }

    method DisablePllModeForOutput(o: Output)
      modifies this
      ensures registers == After(old(registers), RouteWrite(o))
    {
      WriteMaskedRegister(RouteWrite(o));
    }

    method WriteOutputDivider(o: Output, divider: bv16)
      modifies this
      ensures registers == AfterAll(old(registers), OutputWrites(o, divider))
    {
      ForceOutputEnabled(o);
      DisablePllModeForOutput(o);
      WriteDividerRegister(o, divider);
      TwoWrites(old(registers), EnableWrite(o), RouteWrite(o));
      AfterAllAppend(old(registers), [EnableWrite(o), RouteWrite(o)], DividerWrites(o, divider));
    }

    method DisablePllMode()
      modifies this
      ensures registers == Written(old(registers), [])
    {
      WriteMaskedRegister(BYPASS);
      OneWrite(old(registers), BYPASS);
    }

    method ReadStatus() returns (dividers: seq<int>)
      ensures dividers == DividersOf(registers)
    {
      dividers := [];
      for o := 0 to OUTPUT_COUNT
        invariant dividers == DividersOf(registers)[..o]
      {
        var divider := ReadDividerRegister(o);
        dividers := dividers + [divider as int];
      }
    }

    /** Writes the outputs one after the other. */
    method WriteOutputs(settings: seq<Setting>)
      modifies this
      ensures registers == Written(old(registers), settings)
    {
      DisablePllMode();
      for k := 0 to |settings|
        invariant registers == Written(old(registers), settings[..k])
      {
        ghost var before := settings[..k];
        WriteOutputDivider(settings[k].output, settings[k].divider);
        assert settings[..k + 1][..k] == before;
        AfterAllAppend(old(registers), SettingsWrites(before), OutputWrites(settings[k].output, settings[k].divider));
      }
      assert settings[..|settings|] == settings;
    }
  }

  lemma ControlBits(current: bv8, divider: bv16)
    ensures Merged(current, 0x03, Part(High(divider), 0x03)) == (current & 0xFC) | (((divider >> 8) & 0x03) as bv8)
  {
  }

  lemma LowBits(current: bv8, divider: bv16)
    ensures Merged(current, 0xFF, Part(Low(divider), 0xFF)) == (divider & 0xFF) as bv8
  {
  }

  lemma SevenBitsKeepTop(current: bv8, divider: bv16)
    ensures Merged(current, 0x7F, Part(Seven(divider), 0x7F)) == (current & 0x80) | ((divider & 0x7F) as bv8)
  {
  }

  // ---- Selecting outputs ----

  predicate Increasing(s: seq<int>) {
    forall i, j :: 0 <= i < j < |s| ==> s[i] < s[j]
  }

  /** Sorted insertion without repetition. */
  function Insert(x: int, s: seq<int>): (r: seq<int>)
    requires Increasing(s)
    ensures Increasing(r) && forall y :: y in r <==> y == x || y in s
  {
    if s == [] || x < s[0] then [x] + s
    else if x == s[0] then s
    else
      var rest := Insert(x, s[1..]);
      assert forall k :: 0 <= k < |rest| ==> rest[k] in rest && s[0] < rest[k];
      [s[0]] + rest
  }

  function SortedUnique(s: seq<int>): (r: seq<int>)
    ensures Increasing(r) && forall y :: y in r <==> y in s
  {
    if s == [] then [] else
      var r := Insert(s[0], SortedUnique(s[1..]));
      assert forall y :: y in s <==> y == s[0] || y in s[1..];
      r
  }

  predicate AllOutputs(s: seq<int>) {
    forall o :: o in s ==> 0 <= o < OUTPUT_COUNT
  }

  /** The selected outputs in order and without repetition; an empty or out-of-range selection is an error. */
  method NormalizeOutputIndices(selected: seq<int>) returns (normalized: Option<seq<int>>)
    ensures normalized.None? <==> selected == [] || !AllOutputs(selected)
    ensures normalized.Some? ==>
      && Increasing(normalized.value) && AllOutputs(normalized.value)
      && forall o :: o in normalized.value <==> o in selected
  {
    if selected == [] {
      return None;
    }
    var sorted := SortedUnique(selected);
    for k := 0 to |sorted|
      invariant forall i :: 0 <= i < k ==> 0 <= sorted[i] < OUTPUT_COUNT
    {
      if sorted[k] < 0 || sorted[k] >= OUTPUT_COUNT {
        assert sorted[k] in selected;
        return None;
      }
    }
    return Some(sorted);
  }

  // ---- Applying one divider ----

  function Each(outputs: seq<int>, divider: bv16): (settings: seq<Setting>)
    requires AllOutputs(outputs)
    ensures |settings| == |outputs|
    ensures forall k :: 0 <= k < |outputs| ==> outputs[k] in outputs && settings[k] == Setting(outputs[k], divider)
  {
    seq(|outputs|, k requires 0 <= k < |outputs| => assert outputs[k] in outputs; Setting(outputs[k], divider))
  }

  lemma EachIsConsistent(outputs: seq<int>, divider: bv16)
    requires AllOutputs(outputs)
    ensures Consistent(Each(outputs, divider))
  {
  }

  lemma EachMember(outputs: seq<int>, divider: bv16, s: Setting)
    requires AllOutputs(outputs)
    ensures s in Each(outputs, divider) <==> s.output in outputs && s.divider == divider
  {
    if s.output in outputs && s.divider == divider {
      var k :| 0 <= k < |outputs| && outputs[k] == s.output;
      assert Each(outputs, divider)[k] == s;
    }
  }

  /** The same outputs in any order and any number of times leave the same registers. */
  lemma SelectionOrderDoesNotMatter(regs: Registers, outputs: seq<int>, others: seq<int>, divider: bv16)
    requires AllOutputs(outputs) && AllOutputs(others) && forall o :: o in outputs <==> o in others
    ensures Written(regs, Each(outputs, divider)) == Written(regs, Each(others, divider))
  {
    EachIsConsistent(outputs, divider);
    forall s ensures s in Each(outputs, divider) <==> s in Each(others, divider) {
      EachMember(outputs, divider, s);
      EachMember(others, divider, s);
    }
    OrderDoesNotMatter(regs, Each(outputs, divider), Each(others, divider));
  }

  /** Whether the divider of an output is written when the given outputs are. */
  predicate Reached(outputs: seq<int>, o: Output)
    requires AllOutputs(outputs)
  {
    exists p :: p in outputs && SameDivider(p, o)
  }

  /** Selected outputs, and those that share a divider with one, read back the divider; the others keep theirs. */
  lemma AppliedReadsBack(regs: Registers, outputs: seq<int>, divider: int, o: Output)
    requires AllOutputs(outputs)
    requires forall p :: p in outputs ==> ValidDivider(p, divider)
    ensures ReadDivider(Written(regs, Each(outputs, AsBits(divider))), o) as int
      == if Reached(outputs, o) then divider else ReadDivider(regs, o) as int
  {
    var settings := Each(outputs, AsBits(divider));
    EachIsConsistent(outputs, AsBits(divider));
    forall s | s in settings ensures InRange(s.output, s.divider) {
      EachMember(outputs, AsBits(divider), s);
      DividerAsBits(s.output, divider);
    }
    DividersReadBack(regs, settings, o);
    if Reached(outputs, o) {
      var p :| p in outputs && SameDivider(p, o);
      EachMember(outputs, AsBits(divider), Setting(p, AsBits(divider)));
      DividerAsBits(p, divider);
    } else {
      forall s | s in settings ensures !SameDivider(s.output, o) {
        EachMember(outputs, AsBits(divider), s);
      }
    }
  }

  datatype Outcome = InvalidArgument | NotFound | Synchronized(dividers: seq<int>, file: string)

  predicate Acceptable(selected: seq<int>, divider: int, referenceClockHz: int) {
    && selected != []
    && (forall o :: o in selected ==> ValidDivider(o, divider))
    && ValidClock(referenceClockHz)
  }

  method ApplyDividers(device: Device, devicePath: string, selected: seq<int>, divider: int, referenceClockHz: int)
    returns (outcome: Outcome)
    modifies device
    ensures outcome.Synchronized? <==> Acceptable(selected, divider, referenceClockHz)
    ensures !outcome.Synchronized? ==> outcome == InvalidArgument && unchanged(device)
    ensures outcome.Synchronized? ==>
      && AllOutputs(selected)
      && device.registers == Written(old(device.registers), Each(selected, AsBits(divider)))
      && outcome.dividers == DividersOf(device.registers)
      && (forall o: Output :: outcome.dividers[o] == if Reached(selected, o) then divider else DividersOf(old(device.registers))[o])
      && outcome.file == SavedFile(devicePath, referenceClockHz, device.registers)
  {
    var normalized := NormalizeOutputIndices(selected);
    if normalized.None? {
      return InvalidArgument;
    }
    var outputs := normalized.value;
    for k := 0 to |outputs|
      invariant forall i :: 0 <= i < k ==> ValidDivider(outputs[i], divider)
    {
      if !ValidDivider(outputs[k], divider) {
        assert outputs[k] in selected;
        return InvalidArgument;
      }
    }
    if !ValidClock(referenceClockHz) {
      return InvalidArgument;
    }
    device.WriteOutputs(Each(outputs, AsBits(divider)));
    SelectionOrderDoesNotMatter(old(device.registers), selected, outputs, AsBits(divider));
    var dividers := device.ReadStatus();
    forall o: Output
      ensures dividers[o] == if Reached(selected, o) then divider else DividersOf(old(device.registers))[o]
    {
      AppliedReadsBack(old(device.registers), selected, divider, o);
    }
    AllReadsAreLimited(device.registers);
    var file := Save(devicePath, referenceClockHz, dividers);
    return Synchronized(dividers, file.value);
  }

  lemma AllReadsAreLimited(regs: Registers)
    ensures forall i :: 0 <= i < OUTPUT_COUNT ==> 0 <= DividersOf(regs)[i] <= DividerLimit(i)
  {
    hide ReadDivider;
    forall i | 0 <= i < OUTPUT_COUNT ensures 0 <= DividersOf(regs)[i] <= DividerLimit(i) {
      ReadsAreLimited(regs, i);
    }
  }

  function SavedFile(devicePath: string, referenceClockHz: nat, regs: Registers): string {
    AllReadsAreLimited(regs);
    Text(SavedLines(devicePath, referenceClockHz, DividersOf(regs)))
  }

  // ---- Restoring ----

  /** Every divider that a loaded configuration has saved is valid. */
  predicate Trusted(c: Configuration) {
    c.Shaped() && forall i :: 0 <= i < OUTPUT_COUNT && c.savedOutputs[i] ==> ValidDivider(i, c.dividers[i])
  }

  lemma {:induction false} LoadedIsTrusted(c: Configuration, lines: seq<string>)
    requires Trusted(c)
    ensures Trusted(WithLines(c, lines))
  {
    if lines != [] {
      LoadedIsTrusted(c, lines[..|lines| - 1]);
    }
  }

  /** The saved outputs among the first n, in order, each with its own divider. */
  function SavedSettings(c: Configuration, n: nat): (settings: seq<Setting>)
    requires c.Shaped() && n <= OUTPUT_COUNT
    ensures forall s :: s in settings ==> c.savedOutputs[s.output] && s.divider == AsBits(c.dividers[s.output]) && s.output < n
    ensures forall o: Output :: o < n && c.savedOutputs[o] ==> Setting(o, AsBits(c.dividers[o])) in settings
  {
    if n == 0 then []
    else
      SavedSettings(c, n - 1) + if c.savedOutputs[n - 1] then [Setting(n - 1, AsBits(c.dividers[n - 1]))] else []
  }

  /** Restores the saved outputs; without any there is nothing to restore. */
  method InitializeFromSaved(device: Device, file: Option<string>) returns (outcome: Outcome)
    modifies device
    ensures Trusted(Loaded(file))
    ensures outcome.NotFound? <==> !Loaded(file).HasAnyOutput()
    ensures outcome.NotFound? ==> unchanged(device)
    ensures !outcome.NotFound? ==>
      && device.registers == Written(old(device.registers), SavedSettings(Loaded(file), OUTPUT_COUNT))
      && outcome.Synchronized? && outcome.dividers == DividersOf(device.registers)
  {
    var saved := Load(file);
    if file.Some? {
      LoadedIsTrusted(EMPTY, Lines(file.value));
    }
    var any := false;
    for index := 0 to OUTPUT_COUNT
      invariant any <==> exists i :: 0 <= i < index && saved.savedOutputs[i]
    {
      any := any || saved.savedOutputs[index];
    }
    if !any {
      return NotFound;
    }
    WriteSaved(device, saved);
    var dividers := device.ReadStatus();
    return Synchronized(dividers, if file.Some? then file.value else []);
  }

  method WriteSaved(device: Device, saved: Configuration)
    requires Trusted(saved)
    modifies device
    ensures device.registers == Written(old(device.registers), SavedSettings(saved, OUTPUT_COUNT))
  {
    hide AsBits, OutputWrites;
    device.DisablePllMode();
    for index := 0 to OUTPUT_COUNT
      invariant device.registers == Written(old(device.registers), SavedSettings(saved, index))
    {
      if saved.savedOutputs[index] {
        // A loaded configuration is trusted, so the validation before the write never throws.
        ghost var before := SavedSettings(saved, index);
        var setting := Setting(index, AsBits(saved.dividers[index]));
        device.WriteOutputDivider(setting.output, setting.divider);
        OneMoreSetting(old(device.registers), before, setting);
        assert SavedSettings(saved, index + 1) == before + [setting];
      } else {
        assert SavedSettings(saved, index + 1) == SavedSettings(saved, index);
      }
    }
  }

  lemma OneMoreSetting(regs: Registers, settings: seq<Setting>, s: Setting)
    ensures Written(regs, settings + [s]) == AfterAll(Written(regs, settings), OutputWrites(s.output, s.divider))
  {
    assert (settings + [s])[..|settings|] == settings;
    AfterAllAppend(regs, SettingsWrites(settings), OutputWrites(s.output, s.divider));
  }

  lemma SharedDividersReadAlike(regs: Registers, o: Output, p: Output)
    requires SameDivider(o, p)
    ensures ReadDivider(regs, o) == ReadDivider(regs, p)
  {
  }

  /**
   * Reading the status of a device, saving it, and initialising any device from the file
   * gives every output the divider it had, unless that was zero: then it keeps its own.
   */
  lemma SavedDividersAreRestored(regs: Registers, other: Registers, devicePath: string, hz: nat)
    requires '\n' !in devicePath
    ensures var c := Loaded(Some(SavedFile(devicePath, hz, regs)));
      && Trusted(c)
      && c.devicePath == KeptPath(devicePath) && c.referenceClockHz == KeptClock(hz)
      && (c.HasAnyOutput() <==> exists o :: 0 <= o < OUTPUT_COUNT && DividersOf(regs)[o] != 0)
      && forall o: Output ::
           DividersOf(Written(other, SavedSettings(c, OUTPUT_COUNT)))[o]
           == if DividersOf(regs)[o] != 0 then DividersOf(regs)[o] else DividersOf(other)[o]
  {
    var ds := DividersOf(regs);
    AllReadsAreLimited(regs);
    SavedIsLoaded(devicePath, hz, ds);
    var c := Loaded(Some(SavedFile(devicePath, hz, regs)));
    assert c == Remembered(devicePath, hz, ds);
    assert Trusted(c);
    assert Remembers(c, regs);
    forall o: Output
      ensures DividersOf(Written(other, SavedSettings(c, OUTPUT_COUNT)))[o] == if ds[o] != 0 then ds[o] else DividersOf(other)[o]
    {
      RestoresOutput(regs, other, c, o);
    }
  }

  /** The configuration has saved exactly the dividers of the registers that are not zero. */
  predicate Remembers(c: Configuration, regs: Registers) {
    c.Shaped() && forall i :: 0 <= i < OUTPUT_COUNT ==>
      && (c.savedOutputs[i] <==> DividersOf(regs)[i] != 0)
      && (c.savedOutputs[i] ==> c.dividers[i] == DividersOf(regs)[i])
  }

  lemma SavedSettingReads(regs: Registers, c: Configuration, o: Output)
    requires Trusted(c) && Remembers(c, regs) && c.savedOutputs[o]
    ensures AsBits(c.dividers[o]) == ReadDivider(regs, o) && InRange(o, AsBits(c.dividers[o]))
  {
    hide ReadDivider, InRange, AsBits;
    ReadsAreLimited(regs, o);
    DividerAsBits(o, c.dividers[o]);
  }

  lemma SavedSettingsRead(regs: Registers, c: Configuration)
    requires Trusted(c) && Remembers(c, regs)
    ensures var settings := SavedSettings(c, OUTPUT_COUNT);
      && Consistent(settings) && AllInRange(settings)
      && forall s :: s in settings ==> s.divider == ReadDivider(regs, s.output)
  {
    hide ReadDivider, InRange, AsBits, Remembers;
    var settings := SavedSettings(c, OUTPUT_COUNT);
    forall s | s in settings ensures s.divider == ReadDivider(regs, s.output) && InRange(s.output, s.divider) {
      SavedSettingReads(regs, c, s.output);
    }
    forall s, t | s in settings && t in settings && SameDivider(s.output, t.output) ensures s.divider == t.divider {
      SharedDividersReadAlike(regs, s.output, t.output);
    }
  }

  lemma SharedAreSavedAlike(regs: Registers, c: Configuration, o: Output, p: Output)
    requires Remembers(c, regs) && SameDivider(o, p)
    ensures c.savedOutputs[o] == c.savedOutputs[p]
  {
    hide ReadDivider;
    SharedDividersReadAlike(regs, o, p);
  }

  lemma RestoresOutput(regs: Registers, other: Registers, c: Configuration, o: Output)
    requires Trusted(c) && Remembers(c, regs)
    ensures DividersOf(Written(other, SavedSettings(c, OUTPUT_COUNT)))[o]
      == if DividersOf(regs)[o] != 0 then DividersOf(regs)[o] else DividersOf(other)[o]
  {
    hide ReadDivider, InRange, AsBits, Written, AllInRange, Consistent;
    var settings := SavedSettings(c, OUTPUT_COUNT);
    SavedSettingsRead(regs, c);
    DividersReadBack(other, settings, o);
    if c.savedOutputs[o] {
      assert Setting(o, AsBits(c.dividers[o])) in settings;
    } else {
      forall s | s in settings ensures !SameDivider(s.output, o) {
        if SameDivider(s.output, o) {
          SharedAreSavedAlike(regs, c, s.output, o);
        }
      }
    }
  }
}
