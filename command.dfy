/** The test commands of command.c. A command line, already split into its space-separated
  * tokens, either sets up the caches before the run (SetBlock, SetSharers), issues an access
  * (Access), or is deferred to the end of the simulation, where CheckBlock compares an entry
  * with its expected tag and state and CheckLink reads a link's byte count. Every field is
  * read by a getter that consumes exactly one token and stops the run on a malformed one. */
module Command {
  import opened Wrappers
  import opened States
  import opened Addressing
  import opened CacheStore

  // The string routines the getters call (strcasecmp, atoi, sscanf and the string maps of
  // the utility library), over ASCII.

  function Lower(c: char): char
  {
    if 'A' <= c <= 'Z' then (c as int + 32) as char else c
  }

  /** `!strcasecmp(a, b)`. */
  predicate SameIgnoringCase(a: string, b: string)
  {
    |a| == |b| && forall i :: 0 <= i < |a| ==> Lower(a[i]) == Lower(b[i])
  }

  /** `!strncasecmp(s, p, |p|)`: a string shorter than `p` differs from it where it ends. */
  predicate StartsIgnoringCase(s: string, p: string)
  {
    |s| >= |p| && SameIgnoringCase(s[..|p|], p)
  }

  predicate IsDigit(c: char)
  {
    '0' <= c <= '9'
  }

  predicate AllDigits(s: string)
  {
    forall i :: 0 <= i < |s| ==> IsDigit(s[i])
  }

  /** The value of a string of decimal digits. */
  function DecimalValue(s: string): nat
    requires AllDigits(s)
    decreases |s|
  {
    if |s| == 0 then 0
    else
      assert IsDigit(s[|s| - 1]);
      assert AllDigits(s[..|s| - 1]) by {
        assert forall i :: 0 <= i < |s| - 1 ==> s[..|s| - 1][i] == s[i];
      }
      DecimalValue(s[..|s| - 1]) * 10 + (s[|s| - 1] as int - '0' as int)
  }

  /** The length of the run of decimal digits `s` starts with. */
  function DigitRun(s: string): (n: nat)
    ensures n <= |s| && AllDigits(s[..n]) && (n < |s| ==> !IsDigit(s[n]))
  {
    if |s| == 0 || !IsDigit(s[0]) then 0
    else
      var n := 1 + DigitRun(s[1..]);
      assert forall i :: 1 <= i < n ==> s[..n][i] == s[1..][..n - 1][i - 1];
      n
  }

  /** The sign a number may start with, and where its digits begin. */
  function SignLength(s: string): (k: nat)
    ensures k <= 1 && k <= |s|
  {
    if |s| > 0 && (s[0] == '-' || s[0] == '+') then 1 else 0
  }

  function Signed(s: string, magnitude: nat): int
  {
    if |s| > 0 && s[0] == '-' then -(magnitude as int) else magnitude
  }

  /** `str_to_llint` for a decimal integer with an optional sign: anything else is an error. */
  function ParseInteger(s: string): (r: Option<int>)
    ensures r.Some? <==> |s| > SignLength(s) && AllDigits(s[SignLength(s)..])
  {
    var digits := s[SignLength(s)..];
    if |digits| == 0 || !AllDigits(digits) then None else Some(Signed(s, DecimalValue(digits)))
  }

  /** `atoi`: an optional sign and the digits that follow it, 0 when there are none. */
  function Atoi(s: string): int
  {
    var digits := s[SignLength(s)..];
    Signed(s, DecimalValue(digits[..DigitRun(digits)]))
  }

  predicate IsHexDigit(c: char)
  {
    IsDigit(c) || 'a' <= c <= 'f' || 'A' <= c <= 'F'
  }

  function HexDigitValue(c: char): (v: nat)
    requires IsHexDigit(c)
    ensures v < 16
  {
    if IsDigit(c) then c as int - '0' as int
    else if 'a' <= c <= 'f' then c as int - 'a' as int + 10
    else c as int - 'A' as int + 10
  }

  predicate AllHex(s: string)
  {
    forall i :: 0 <= i < |s| ==> IsHexDigit(s[i])
  }

  function HexValue(s: string): nat
    requires AllHex(s)
    decreases |s|
  {
    if |s| == 0 then 0 else HexValue(s[..|s| - 1]) * 16 + HexDigitValue(s[|s| - 1])
  }

  function HexRun(s: string): (n: nat)
    ensures n <= |s| && AllHex(s[..n]) && (n < |s| ==> !IsHexDigit(s[n]))
  {
    if |s| == 0 || !IsHexDigit(s[0]) then 0
    else
      var n := 1 + HexRun(s[1..]);
      assert forall i :: 1 <= i < n ==> s[..n][i] == s[1..][..n - 1][i - 1];
      n
  }

  /** `sscanf(s, "0x%x", &value) == 1`: a literal `0x` followed by at least one hex digit; the
    * digits up to the first other character give the value. */
  function ParseHex(s: string): (r: Option<nat>)
    ensures r.Some? ==> |s| > 2 && s[0] == '0' && s[1] == 'x' && IsHexDigit(s[2])
    ensures |s| > 2 && s[0] == '0' && s[1] == 'x' && IsHexDigit(s[2]) ==> r.Some?
  {
    if |s| >= 2 && s[0] == '0' && s[1] == 'x' then
      var digits := s[2..];
      var n := HexRun(digits);
      if n == 0 then None else Some(HexValue(digits[..n]))
    else None
  }

  /** One entry of a `str_map_t`. */
  datatype Entry<T> = Entry(name: string, value: T)

  /** `str_map_string_case(map, s)`: the value of the first of the map's first `count`
    * entries named `s` ignoring case, or `none` (the value 0) when there is none. */
  function MapStringCase<T>(entries: seq<Entry<T>>, count: nat, s: string, none: T): T
    decreases count
  {
    if count == 0 || |entries| == 0 then none
    else if SameIgnoringCase(s, entries[0].name) then entries[0].value
    else MapStringCase(entries[1..], count - 1, s, none)
  }

  /** `cache_block_state_map`: the one-letter state names. */
  function StateName(s: BlockState): string
  {
    match s
    case NonCoherent => "N"
    case Modified => "M"
    case Owned => "O"
    case Exclusive => "E"
    case Shared => "S"
    case Invalid => "I"
  }

  const StateMap: seq<Entry<BlockState>> :=
    [Entry("N", NonCoherent), Entry("M", Modified), Entry("O", Owned),
     Entry("E", Exclusive), Entry("S", Shared), Entry("I", Invalid)]

  /** The access kinds a command may name. */
  function AccessName(k: AccessKind): string
    requires k != NoAccess
  {
    match k
    case Load => "Load"
    case Store => "Store"
    case NCStore => "NCStore"
    case Prefetch => "Prefetch"
  }

  /** The entries of `mod_access_kind_map` (module.c:45-53). */
  const AccessMap: seq<Entry<AccessKind>> :=
    [Entry("Load", Load), Entry("Store", Store), Entry("NCStore", NCStore), Entry("Prefetch", Prefetch)]

  /** The entry count `mod_access_kind_map` declares: one less than the entries it lists. */
  const AccessMapCountAsWritten: nat := 3

  // The getters (command.c:48-289). Each reads the first token and hands back the rest.

  /** A value read from the line and the tokens after it. */
  datatype Got<T> = Got(value: T, rest: seq<string>)

  /** `mem_system_command_expect`: a field is due, so the line must not have ended. */
  function Expect(ts: seq<string>): (r: Result<string>)
    ensures r.Ok? <==> |ts| > 0
    ensures r.Ok? ==> r.value == ts[0]
  {
    if |ts| == 0 then Fatal("unexpected end of line") else Ok(ts[0])
  }

  /** `mem_system_command_end`: nothing may follow the last field. */
  function EndOfLine(ts: seq<string>): (r: Result<()>)
    ensures r.Ok? <==> ts == []
  {
    if |ts| == 0 then Ok(()) else Fatal("end of line expected")
  }

  /** `mem_system_command_get_hex`. */
  function GetHex(ts: seq<string>): (r: Result<Got<nat>>)
    ensures r.Ok? <==> |ts| > 0 && ParseHex(ts[0]).Some?
    ensures r.Ok? ==> r.value == Got(ParseHex(ts[0]).value, ts[1..])
  {
    var tok :- Expect(ts);
    match ParseHex(tok)
    case None => Fatal("invalid hex value")
    case Some(v) => Ok(Got(v, ts[1..]))
  }

  /** `mem_system_command_get_string`. */
  function GetString(ts: seq<string>): (r: Result<Got<string>>)
    ensures r.Ok? <==> |ts| > 0
    ensures r.Ok? ==> r.value == Got(ts[0], ts[1..])
  {
    var tok :- Expect(ts);
    Ok(Got(tok, ts[1..]))
  }

  /** `mem_system_command_get_cycle`: an integer of at least 1. */
  function GetCycle(ts: seq<string>): (r: Result<Got<int>>)
    ensures r.Ok? <==> |ts| > 0 && ParseInteger(ts[0]).Some? && ParseInteger(ts[0]).value >= 1
    ensures r.Ok? ==> r.value == Got(ParseInteger(ts[0]).value, ts[1..]) && r.value.value >= 1
  {
    var tok :- Expect(ts);
    match ParseInteger(tok)
    case None => Fatal("invalid cycle number, integer >= 1 expected")
    case Some(c) => if c < 1 then Fatal("invalid cycle number, integer >= 1 expected") else Ok(Got(c, ts[1..]))
  }

  /** `mem_system_command_get_high_low`: "High" is true, "Low" false, in any case. */
  function GetHighLow(ts: seq<string>): (r: Result<Got<bool>>)
    ensures r.Ok? <==> |ts| > 0 && (SameIgnoringCase(ts[0], "High") || SameIgnoringCase(ts[0], "Low"))
    ensures r.Ok? ==> r.value.rest == ts[1..]
    ensures r.Ok? ==> (r.value.value <==> SameIgnoringCase(ts[0], "High"))
  {
    var tok :- Expect(ts);
    if SameIgnoringCase(tok, "High") then Ok(Got(true, ts[1..]))
    else if SameIgnoringCase(tok, "Low") then Ok(Got(false, ts[1..]))
    else Fatal("invalid network direction")
  }

  /** `mem_system_command_get_in_out`: "In" is true, "Out" false, in any case. */
  function GetInOut(ts: seq<string>): (r: Result<Got<bool>>)
    ensures r.Ok? <==> |ts| > 0 && (SameIgnoringCase(ts[0], "In") || SameIgnoringCase(ts[0], "Out"))
    ensures r.Ok? ==> r.value.rest == ts[1..]
    ensures r.Ok? ==> (r.value.value <==> SameIgnoringCase(ts[0], "In"))
  {
    var tok :- Expect(ts);
    if SameIgnoringCase(tok, "In") then Ok(Got(true, ts[1..]))
    else if SameIgnoringCase(tok, "Out") then Ok(Got(false, ts[1..]))
    else Fatal("invalid network direction")
  }

  /** What a command needs of a module: its name, address range, cache geometry, number of
    * sub-blocks, and its high and low networks (0 for none). */
  datatype ModInfo = ModInfo(name: string, range: Range, geometry: Geometry, numSubBlocks: nat,
                             highNet: int, lowNet: int)

  predicate ModsOk(mods: seq<ModInfo>)
  {
    forall i :: 0 <= i < |mods| ==> GeometryOk(mods[i].geometry) && RangeOk(mods[i].range)
  }

  /** `mem_system_get_mod`: the first module, from `from` on, named `name` ignoring case. */
  function FindMod(mods: seq<ModInfo>, name: string, from: nat): (r: Option<nat>)
    requires from <= |mods|
    ensures r.Some? ==> from <= r.value < |mods| && SameIgnoringCase(mods[r.value].name, name)
    ensures r.Some? ==> forall j :: from <= j < r.value ==> !SameIgnoringCase(mods[j].name, name)
    ensures r.None? <==> forall j :: from <= j < |mods| ==> !SameIgnoringCase(mods[j].name, name)
    decreases |mods| - from
  {
    if from == |mods| then None
    else if SameIgnoringCase(mods[from].name, name) then Some(from)
    else FindMod(mods, name, from + 1)
  }

  /** `mem_system_command_get_mod`: "None" (in any case) is no module; any other name must
    * name one. */
  function GetMod(ts: seq<string>, mods: seq<ModInfo>): (r: Result<Got<Option<nat>>>)
    ensures r.Ok? ==> |ts| > 0 && r.value.rest == ts[1..]
    ensures r.Ok? && r.value.value.None? <==> |ts| > 0 && SameIgnoringCase(ts[0], "None")
    ensures r.Ok? && r.value.value.Some? ==>
      r.value.value.value < |mods| && SameIgnoringCase(mods[r.value.value.value].name, ts[0])
    ensures |ts| > 0 && !SameIgnoringCase(ts[0], "None") ==> (r.Ok? <==> FindMod(mods, ts[0], 0).Some?)
  {
    var tok :- Expect(ts);
    if SameIgnoringCase(tok, "None") then Ok(Got(None, ts[1..]))
    else match FindMod(mods, tok, 0)
      case None => Fatal("invalid module name")
      case Some(i) => Ok(Got(Some(i), ts[1..]))
  }

  /** `mem_system_command_get_set_way`: there must be a module; the set and the way (read with
    * `atoi`) must lie within its cache. */
  function GetSetWay(ts: seq<string>, mods: seq<ModInfo>, m: Option<nat>): (r: Result<Got<(nat, nat)>>)
    requires m.Some? ==> m.value < |mods|
    ensures m.None? ==> r.Fatal?
    ensures r.Ok? ==>
      m.Some? && |ts| >= 2 && r.value.rest == ts[2..]
      && r.value.value.0 == Atoi(ts[0]) && r.value.value.1 == Atoi(ts[1])
      && r.value.value.0 < mods[m.value].geometry.numSets && r.value.value.1 < mods[m.value].geometry.assoc
    ensures m.Some? && |ts| >= 2 ==>
      (r.Ok? <==> 0 <= Atoi(ts[0]) < mods[m.value].geometry.numSets && 0 <= Atoi(ts[1]) < mods[m.value].geometry.assoc)
  {
    if m.None? then Fatal("invalid module")
    else
      var g := mods[m.value].geometry;
      var setTok :- Expect(ts);
      var wayTok :- Expect(ts[1..]);
      var si := Atoi(setTok);
      var way := Atoi(wayTok);
      if !(0 <= si <= g.numSets - 1) then Fatal("invalid set")
      else if !(0 <= way <= g.assoc - 1) then Fatal("invalid way")
      else Ok(Got((si as nat, way as nat), ts[2..]))
  }

  /** `mem_system_command_get_sub_block`: a sub-block of the module's blocks. */
  function GetSubBlock(ts: seq<string>, m: ModInfo): (r: Result<Got<nat>>)
    ensures r.Ok? <==> |ts| > 0 && 0 <= Atoi(ts[0]) < m.numSubBlocks
    ensures r.Ok? ==> r.value == Got(Atoi(ts[0]) as nat, ts[1..])
  {
    var tok :- Expect(ts);
    var sb := Atoi(tok);
    if !(0 <= sb <= m.numSubBlocks - 1) then Fatal("invalid sub-block") else Ok(Got(sb as nat, ts[1..]))
  }

  /** `mem_system_command_get_state`: the map gives 0 both for "I" and for an unknown name, so
    * 0 is taken only from "I". */
  function GetState(ts: seq<string>): (r: Result<Got<BlockState>>)
    ensures r.Ok? ==> |ts| > 0 && r.value.rest == ts[1..]
  {
    var tok :- Expect(ts);
    var s := MapStringCase(StateMap, |StateMap|, tok, Invalid);
    if s == Invalid && !SameIgnoringCase(tok, "I") then Fatal("invalid state") else Ok(Got(s, ts[1..]))
  }

  /** `mem_system_command_get_mod_access` over a map of `count` entries: 0 is no access. */
  function GetAccessOf(ts: seq<string>, count: nat): (r: Result<Got<AccessKind>>)
    ensures r.Ok? ==> |ts| > 0 && r.value.rest == ts[1..] && r.value.value != NoAccess
    ensures r.Ok? ==> r.value.value == MapStringCase(AccessMap, count, ts[0], NoAccess)
    ensures |ts| > 0 ==> (r.Ok? <==> MapStringCase(AccessMap, count, ts[0], NoAccess) != NoAccess)
  {
    var tok :- Expect(ts);
    var k := MapStringCase(AccessMap, count, tok, NoAccess);
    if k == NoAccess then Fatal("invalid access") else Ok(Got(k, ts[1..]))
  }

  /** The access getter as written: the map's declared count leaves its last entry out. */
  function GetAccessAsWritten(ts: seq<string>): Result<Got<AccessKind>>
  {
    GetAccessOf(ts, AccessMapCountAsWritten)
  }

  /** The access getter over every entry of the map. */
  function GetAccess(ts: seq<string>): Result<Got<AccessKind>>
  {
    GetAccessOf(ts, |AccessMap|)
  }

  /** A state token is accepted exactly when it is a state's one-letter name, in any case,
    * and it gives that state. */
  lemma StateTokenMeaning(tok: string, s: BlockState)
    ensures GetState([tok]) == Ok(Got(s, [])) <==> SameIgnoringCase(tok, StateName(s))
  {
    StateMapUnfold(tok);
    assert [tok][0] == tok && [tok][1..] == [];
    assert SameIgnoringCase(tok, StateName(s)) <==> |tok| == 1 && Lower(tok[0]) == Lower(StateName(s)[0]);
    assert SameIgnoringCase(tok, "I") <==> |tok| == 1 && Lower(tok[0]) == 'i';
  }

  lemma StateMapUnfold(tok: string)
    ensures MapStringCase(StateMap, |StateMap|, tok, Invalid) ==
      if SameIgnoringCase(tok, "N") then NonCoherent
      else if SameIgnoringCase(tok, "M") then Modified
      else if SameIgnoringCase(tok, "O") then Owned
      else if SameIgnoringCase(tok, "E") then Exclusive
      else if SameIgnoringCase(tok, "S") then Shared
      else Invalid
  {
    var m1 := StateMap[1..];
    var m2 := m1[1..];
    var m3 := m2[1..];
    var m4 := m3[1..];
    var m5 := m4[1..];
    assert MapStringCase(m5, 1, tok, Invalid) == if SameIgnoringCase(tok, "I") then Invalid else Invalid;
    assert MapStringCase(m4, 2, tok, Invalid) == if SameIgnoringCase(tok, "S") then Shared else MapStringCase(m5, 1, tok, Invalid);
    assert MapStringCase(m3, 3, tok, Invalid) == if SameIgnoringCase(tok, "E") then Exclusive else MapStringCase(m4, 2, tok, Invalid);
    assert MapStringCase(m2, 4, tok, Invalid) == if SameIgnoringCase(tok, "O") then Owned else MapStringCase(m3, 3, tok, Invalid);
    assert MapStringCase(m1, 5, tok, Invalid) == if SameIgnoringCase(tok, "M") then Modified else MapStringCase(m2, 4, tok, Invalid);
  }

  lemma AccessMapUnfold(tok: string)
    ensures MapStringCase(AccessMap, |AccessMap|, tok, NoAccess) ==
      if SameIgnoringCase(tok, "Load") then Load
      else if SameIgnoringCase(tok, "Store") then Store
      else if SameIgnoringCase(tok, "NCStore") then NCStore
      else if SameIgnoringCase(tok, "Prefetch") then Prefetch
      else NoAccess
    ensures MapStringCase(AccessMap, AccessMapCountAsWritten, tok, NoAccess) ==
      if SameIgnoringCase(tok, "Load") then Load
      else if SameIgnoringCase(tok, "Store") then Store
      else if SameIgnoringCase(tok, "NCStore") then NCStore
      else NoAccess
  {
    var m1 := AccessMap[1..];
    var m2 := m1[1..];
    var m3 := m2[1..];
    assert MapStringCase(m3, 1, tok, NoAccess) == if SameIgnoringCase(tok, "Prefetch") then Prefetch else NoAccess;
    assert MapStringCase(m2, 2, tok, NoAccess) == if SameIgnoringCase(tok, "NCStore") then NCStore else MapStringCase(m3, 1, tok, NoAccess);
    assert MapStringCase(m2, 1, tok, NoAccess) == if SameIgnoringCase(tok, "NCStore") then NCStore else NoAccess;
    assert MapStringCase(m1, 3, tok, NoAccess) == if SameIgnoringCase(tok, "Store") then Store else MapStringCase(m2, 2, tok, NoAccess);
    assert MapStringCase(m1, 2, tok, NoAccess) == if SameIgnoringCase(tok, "Store") then Store else MapStringCase(m2, 1, tok, NoAccess);
  }

  /** Over every entry, an access token is accepted exactly when it names an access kind in
    * any case, and it gives that kind. */
  lemma AccessTokenMeaning(tok: string, k: AccessKind)
    requires k != NoAccess
    ensures GetAccess([tok]) == Ok(Got(k, [])) <==> SameIgnoringCase(tok, AccessName(k))
  {
    AccessMapUnfold(tok);
  }

  /** As written, "Prefetch" is never recognised: the declared count stops the search before
    * the entry that names it. */
  lemma PrefetchNotRecognised()
    ensures GetAccessAsWritten(["Prefetch"]).Fatal?
    ensures GetAccess(["Prefetch"]) == Ok(Got(Prefetch, []))
  {
    AccessMapUnfold("Prefetch");
  }

  /** Every kind the map as written recognises is recognised the same way over all entries. */
  lemma AccessAsWrittenAgrees(ts: seq<string>)
    requires GetAccessAsWritten(ts).Ok?
    ensures GetAccess(ts) == GetAccessAsWritten(ts)
  {
    AccessMapUnfold(ts[0]);
  }

  // The command lines (command.c:302-604).

  /** The fields of a SetBlock or CheckBlock line: a module, a set and a way of its cache, a
    * tag and a state. */
  datatype BlockCmd = BlockCmd(mod: nat, si: nat, way: nat, tag: nat, state: BlockState)

  /** Reads the fields of a SetBlock or CheckBlock line, which must end after the state. */
  function BlockFields(ts: seq<string>, mods: seq<ModInfo>): (r: Result<BlockCmd>)
    ensures r.Ok? ==>
      |ts| == 5 && r.value.mod < |mods| && SameIgnoringCase(mods[r.value.mod].name, ts[0])
      && r.value.si < mods[r.value.mod].geometry.numSets && r.value.way < mods[r.value.mod].geometry.assoc
      && ParseHex(ts[3]) == Some(r.value.tag)
      && GetState(ts[4..]) == Ok(Got(r.value.state, []))
  {
    var m :- GetMod(ts, mods);
    var sw :- GetSetWay(m.rest, mods, m.value);
    var t :- GetHex(sw.rest);
    var st :- GetState(t.rest);
    var _ :- EndOfLine(st.rest);
    Ok(BlockCmd(m.value.value, sw.value.0, sw.value.1, t.value, st.value))
  }

  /** `mod_serves_address` as a check that stops the run. */
  function ServesCheck(m: ModInfo, tag: nat): (r: Result<()>)
    requires RangeOk(m.range)
    ensures r.Ok? <==> ServesAddr(m.range, tag)
  {
    var serves :- Serves(m.range, tag);
    if serves then Ok(()) else Fatal("module does not serve address")
  }

  /** The checks SetBlock makes of its tag (command.c:348-360): the module serves it, it falls
    * in the given set, and it is the first address of its block. */
  function BlockFits(m: ModInfo, si: nat, tag: nat): (r: Result<()>)
    requires GeometryOk(m.geometry) && RangeOk(m.range)
  {
    var _ :- ServesCheck(m, tag);
    match SetIndex(m.geometry, m.range, BlockTag(m.geometry, tag))
    case Fatal(e) => Fatal(e)
    case Ok(setCheck) =>
      if si != setCheck then Fatal("tag belongs to another set")
      else if tag != BlockTag(m.geometry, tag) then Fatal("tag should be multiple of block size")
      else Ok(())
  }

  /** A tag fits exactly when the module serves it, it is block-aligned and its set is `si`. */
  lemma BlockFitsMeaning(m: ModInfo, si: nat, tag: nat)
    requires GeometryOk(m.geometry) && RangeOk(m.range)
    ensures BlockFits(m, si, tag).Ok? <==>
      ServesAddr(m.range, tag) && tag % BlockSize(m.geometry) == 0 && SetIndex(m.geometry, m.range, tag) == Ok(si)
  {
    SetIndexOfTag(m.geometry, m.range, tag);
    var t := BlockTag(m.geometry, tag);
    if tag % BlockSize(m.geometry) == 0 {
      assert t == tag;
    }
  }

  /** The SetBlock command (command.c:328-364). */
  function SetBlockCommand(ts: seq<string>, mods: seq<ModInfo>): (r: Result<BlockCmd>)
    requires ModsOk(mods)
    ensures r.Ok? ==>
      BlockFields(ts, mods) == r && ServesAddr(mods[r.value.mod].range, r.value.tag)
      && r.value.tag % BlockSize(mods[r.value.mod].geometry) == 0
      && SetIndex(mods[r.value.mod].geometry, mods[r.value.mod].range, r.value.tag) == Ok(r.value.si)
    ensures BlockFields(ts, mods).Ok? ==>
      (r.Ok? <==> BlockFits(mods[BlockFields(ts, mods).value.mod], BlockFields(ts, mods).value.si,
                            BlockFields(ts, mods).value.tag).Ok?)
  {
    var c :- BlockFields(ts, mods);
    BlockFitsMeaning(mods[c.mod], c.si, c.tag);
    var _ :- BlockFits(mods[c.mod], c.si, c.tag);
    Ok(c)
  }

  /** `sharer` is an immediate higher-level module of `m`: its low network is `m`'s high one. */
  predicate IsHigherOf(mods: seq<ModInfo>, sharer: nat, m: nat)
    requires sharer < |mods| && m < |mods|
  {
    mods[sharer].lowNet != 0 && mods[sharer].lowNet == mods[m].highNet
  }

  /** The sharer list of SetSharers (command.c:384-396): every token is "None", skipped, or
    * names an immediate higher-level module of `m`. */
  function SharersOk(ts: seq<string>, mods: seq<ModInfo>, m: nat): (r: Result<()>)
    requires m < |mods|
    decreases |ts|
  {
    if |ts| == 0 then Ok(())
    else
      var sh :- GetMod(ts, mods);
      match sh.value
      case None => SharersOk(sh.rest, mods, m)
      case Some(j) =>
        if !IsHigherOf(mods, j, m) then Fatal("not a higher-level module")
        else SharersOk(sh.rest, mods, m)
  }

  /** The token `tok` is an acceptable sharer of `m`. */
  predicate SharerToken(mods: seq<ModInfo>, m: nat, tok: string)
    requires m < |mods|
  {
    SameIgnoringCase(tok, "None") || (FindMod(mods, tok, 0).Some? && IsHigherOf(mods, FindMod(mods, tok, 0).value, m))
  }

  /** The sharer list is accepted exactly when every one of its tokens is. */
  lemma {:induction false} SharersMeaning(ts: seq<string>, mods: seq<ModInfo>, m: nat)
    requires m < |mods|
    ensures SharersOk(ts, mods, m).Ok? <==> forall i :: 0 <= i < |ts| ==> SharerToken(mods, m, ts[i])
    decreases |ts|
  {
    if |ts| > 0 {
      SharersMeaning(ts[1..], mods, m);
      assert forall i :: 1 <= i < |ts| ==> ts[1..][i - 1] == ts[i];
      if SharerToken(mods, m, ts[0]) {
        assert SharersOk(ts, mods, m) == SharersOk(ts[1..], mods, m);
      }
    }
  }

  /** The SetSharers command (command.c:366-397): a module, a set and a way, a sub-block, and
    * at least one sharer. It checks the line and changes nothing. */
  function SetSharersCommand(ts: seq<string>, mods: seq<ModInfo>): (r: Result<()>)
  {
    var m :- GetMod(ts, mods);
    var sw :- GetSetWay(m.rest, mods, m.value);
    var sb :- GetSubBlock(sw.rest, mods[m.value.value]);
    var _ :- Expect(sb.rest);
    SharersOk(sb.rest, mods, m.value.value)
  }

  /** SetSharers accepts a line exactly when its fields are well formed, there is at least one
    * sharer, and every sharer token is acceptable. */
  lemma SetSharersMeaning(ts: seq<string>, mods: seq<ModInfo>)
    ensures SetSharersCommand(ts, mods).Ok? <==>
      |ts| >= 5 && GetMod(ts, mods).Ok? && GetMod(ts, mods).value.value.Some?
      && GetSetWay(ts[1..], mods, GetMod(ts, mods).value.value).Ok?
      && GetSubBlock(ts[3..], mods[GetMod(ts, mods).value.value.value]).Ok?
      && forall i :: 4 <= i < |ts| ==> SharerToken(mods, GetMod(ts, mods).value.value.value, ts[i])
  {
    if |ts| >= 4 && GetMod(ts, mods).Ok? && GetMod(ts, mods).value.value.Some? {
      var m := GetMod(ts, mods).value.value.value;
      SharersMeaning(ts[4..], mods, m);
      assert forall i :: 4 <= i < |ts| ==> ts[4..][i - 4] == ts[i];
      assert ts[1..][2..] == ts[3..] && ts[3..][1..] == ts[4..];
    }
  }

  /** What a command line does once it is accepted. */
  datatype Outcome =
    | Deferred
    | BlockSet(cmd: BlockCmd)
    | SharersChecked
    | Rescheduled(delay: int)
    | Accessed(mod: nat, kind: AccessKind, addr: nat)

  /** The Access command as written (command.c:400-428): the module may be "None", and the
    * access kind is decoded with the map's declared count. */
  datatype AccessIssue = Later(delay: int) | Issue(mod: Option<nat>, kind: AccessKind, addr: nat)

  function AccessCommandAsWritten(ts: seq<string>, mods: seq<ModInfo>, cycle: nat): (r: Result<AccessIssue>)
    ensures r.Ok? && r.value.Later? ==> r.value.delay > 0
    ensures r.Ok? && r.value.Issue? ==> r.value.kind != NoAccess
  {
    var m :- GetMod(ts, mods);
    var c :- GetCycle(m.rest);
    var k :- GetAccessAsWritten(c.rest);
    var a :- GetHex(k.rest);
    if c.value > cycle then Ok(Later(c.value - cycle)) else Ok(Issue(m.value, k.value, a.value))
  }

  /** As written, "Access None 1 Load 0x40" reaches `mod_access` with no module, which the
    * access then dereferences. */
  lemma AccessNoneReachesNoModule(mods: seq<ModInfo>)
    ensures AccessCommandAsWritten(["None", "1", "Load", "0x40"], mods, 1) == Ok(Issue(None, Load, 64))
  {
    var ts := ["None", "1", "Load", "0x40"];
    assert SameIgnoringCase(ts[0], "None");
    assert ParseInteger("1") == Some(1) by {
      assert "1"[0..] == "1";
      assert DecimalValue("1") == 1 by { assert "1"[..0] == []; }
    }
    AccessMapUnfold("Load");
    assert ParseHex("0x40") == Some(64) by {
      var d := "0x40"[2..];
      assert d == "40";
      assert HexRun(d) == 2 by { assert d[1..] == "0"; assert d[1..][1..] == []; }
      assert d[..2] == "40";
      assert HexValue("40") == 64 by { assert "40"[..1] == "4"; assert "4"[..0] == []; }
    }
  }

  /** The Access command (command.c:400-428) with a module required, as SetBlock and CheckBlock
    * require one, and with every access kind of the map recognised: a command for a later
    * cycle is put off by the difference; any other issues the access to the module. */
  function AccessCommand(ts: seq<string>, mods: seq<ModInfo>, cycle: nat): (r: Result<Outcome>)
    ensures r.Ok? ==> r.value.Rescheduled? || r.value.Accessed?
    ensures r.Ok? ==> |ts| >= 4 && GetCycle(ts[1..]).Ok?
    ensures r.Ok? && r.value.Rescheduled? ==>
      r.value.delay > 0 && r.value.delay == ParseInteger(ts[1]).value - cycle
    ensures r.Ok? && r.value.Accessed? ==>
      r.value.mod < |mods| && SameIgnoringCase(mods[r.value.mod].name, ts[0])
      && ParseInteger(ts[1]).value <= cycle && r.value.kind != NoAccess
      && ParseHex(ts[3]) == Some(r.value.addr)
    ensures |ts| > 0 && SameIgnoringCase(ts[0], "None") ==> r.Fatal?
  {
    var m :- GetMod(ts, mods);
    if m.value.None? then Fatal("invalid module")
    else
      var c :- GetCycle(m.rest);
      var k :- GetAccess(c.rest);
      var a :- GetHex(k.rest);
      if c.value > cycle then Ok(Rescheduled(c.value - cycle)) else Ok(Accessed(m.value.value, k.value, a.value))
  }

  /** The corrected command agrees with the one as written wherever that names a module, and
    * refuses the access with no module. */
  lemma AccessCommandAgrees(ts: seq<string>, mods: seq<ModInfo>, cycle: nat)
    requires AccessCommandAsWritten(ts, mods, cycle).Ok?
    ensures GetMod(ts, mods).value.value.None? ==> AccessCommand(ts, mods, cycle).Fatal?
    ensures GetMod(ts, mods).value.value.Some? ==>
      AccessCommand(ts, mods, cycle) ==
        match AccessCommandAsWritten(ts, mods, cycle).value
        case Later(d) => Ok(Rescheduled(d))
        case Issue(m, k, a) => Ok(Accessed(m.value, k, a))
  {
    var c := GetCycle(ts[1..]);
    AccessAsWrittenAgrees(c.value.rest);
  }

  /** `mem_system_command_handler` (command.c:302-438): the first token names the command; any
    * command starting with "Check" waits for the end of the simulation. */
  function Decide(ts: seq<string>, cycle: nat, mods: seq<ModInfo>): (r: Result<Outcome>)
    requires ModsOk(mods)
    ensures r == Ok(Deferred) <==> |ts| > 0 && StartsIgnoringCase(ts[0], "Check")
    ensures r.Ok? && r.value.BlockSet? ==> |ts| > 0 && SameIgnoringCase(ts[0], "SetBlock")
    ensures r.Ok? && r.value.SharersChecked? ==> |ts| > 0 && SameIgnoringCase(ts[0], "SetSharers")
    ensures r.Ok? && (r.value.Rescheduled? || r.value.Accessed?) ==> |ts| > 0 && SameIgnoringCase(ts[0], "Access")
    ensures |ts| == 0 ==> r.Fatal?
  {
    if |ts| == 0 then Fatal("invalid command syntax")
    else if StartsIgnoringCase(ts[0], "Check") then Ok(Deferred)
    else if SameIgnoringCase(ts[0], "SetBlock") then
      var c :- SetBlockCommand(ts[1..], mods);
      Ok(BlockSet(c))
    else if SameIgnoringCase(ts[0], "SetSharers") then
      var _ :- SetSharersCommand(ts[1..], mods);
      Ok(SharersChecked)
    else if SameIgnoringCase(ts[0], "Access") then AccessCommand(ts[1..], mods, cycle)
    else Fatal("invalid command")
  }

  /** What an end-of-simulation command checks once it is accepted. */
  datatype EndOutcome =
    | BlockCheck(cmd: BlockCmd)
    | LinkCheck(mod: Option<nat>, high: bool, incoming: bool, expected: nat)

  /** The CheckBlock command (command.c:474-496): the fields of SetBlock, and a tag the module
    * serves; alignment and set are not checked. */
  function CheckBlockCommand(ts: seq<string>, mods: seq<ModInfo>): (r: Result<BlockCmd>)
    requires ModsOk(mods)
    ensures r.Ok? <==> (BlockFields(ts, mods).Ok?
      && ServesAddr(mods[BlockFields(ts, mods).value.mod].range, BlockFields(ts, mods).value.tag))
    ensures r.Ok? ==> r == BlockFields(ts, mods)
  {
    var c :- BlockFields(ts, mods);
    var _ :- ServesCheck(mods[c.mod], c.tag);
    Ok(c)
  }

  /** `(unsigned long long) atoll(s)`. */
  function UnsignedAtoll(s: string): (r: nat)
    ensures r < 0x1_0000_0000_0000_0000
  {
    Atoi(s) % 0x1_0000_0000_0000_0000
  }

  /** The CheckLink command (command.c:523-545): a module, a network side, a buffer direction
    * and an expected byte count. */
  function CheckLinkCommand(ts: seq<string>, mods: seq<ModInfo>): (r: Result<EndOutcome>)
    ensures r.Ok? ==> r.value.LinkCheck? && |ts| >= 4
    ensures r.Ok? ==> (r.value.high <==> SameIgnoringCase(ts[1], "High"))
    ensures r.Ok? ==> (r.value.incoming <==> SameIgnoringCase(ts[2], "In"))
    ensures r.Ok? ==> r.value.expected == UnsignedAtoll(ts[3])
  {
    var m :- GetMod(ts, mods);
    var h :- GetHighLow(m.rest);
    var i :- GetInOut(h.rest);
    var e :- GetString(i.rest);
    Ok(LinkCheck(m.value, h.value, i.value, UnsignedAtoll(e.value)))
  }

  /** `mem_system_end_command_handler` (command.c:444-596): CheckBlock or CheckLink. */
  function EndDecide(ts: seq<string>, mods: seq<ModInfo>): (r: Result<EndOutcome>)
    requires ModsOk(mods)
    ensures r.Ok? ==> |ts| > 0
    ensures r.Ok? && r.value.BlockCheck? ==> SameIgnoringCase(ts[0], "CheckBlock")
    ensures r.Ok? && r.value.LinkCheck? ==> SameIgnoringCase(ts[0], "CheckLink")
    ensures |ts| > 0 && !SameIgnoringCase(ts[0], "CheckBlock") && !SameIgnoringCase(ts[0], "CheckLink") ==> r.Fatal?
  {
    var cmd :- GetString(ts);
    if SameIgnoringCase(cmd.value, "CheckBlock") then
      var c :- CheckBlockCommand(cmd.rest, mods);
      Ok(BlockCheck(c))
    else if SameIgnoringCase(cmd.value, "CheckLink") then CheckLinkCommand(cmd.rest, mods)
    else Fatal("invalid command")
  }

  /** The verdict of CheckBlock (command.c:504-519): it fails when the stored tag or the stored
    * state is not the one expected. */
  predicate CheckBlockFails(c: BlockCmd, stored: Block)
  {
    stored.tag != c.tag || stored.state != c.state
  }

  /** Every SetBlock line, with its command renamed CheckBlock, is an accepted CheckBlock line
    * for the same entry, and that check passes on the entry SetBlock wrote. */
  lemma SetBlockThenCheckBlockPasses(ts: seq<string>, mods: seq<ModInfo>, before: Block)
    requires ModsOk(mods)
    requires SetBlockCommand(ts, mods).Ok?
    ensures CheckBlockCommand(ts, mods) == SetBlockCommand(ts, mods)
    ensures var c := SetBlockCommand(ts, mods).value;
      !CheckBlockFails(c, before.(tag := c.tag, state := c.state))
  {
  }

  /** A CheckBlock line whose tag is aligned and falls in the given set is a line SetBlock
    * accepts too. */
  lemma CheckBlockAsSetBlock(ts: seq<string>, mods: seq<ModInfo>)
    requires ModsOk(mods)
    requires CheckBlockCommand(ts, mods).Ok?
    requires var c := CheckBlockCommand(ts, mods).value;
      c.tag % BlockSize(mods[c.mod].geometry) == 0
      && SetIndex(mods[c.mod].geometry, mods[c.mod].range, c.tag) == Ok(c.si)
    ensures SetBlockCommand(ts, mods) == CheckBlockCommand(ts, mods)
  {
    var c := CheckBlockCommand(ts, mods).value;
    BlockFitsMeaning(mods[c.mod], c.si, c.tag);
  }

  // The handlers. The token list is shifted field by field, and the caches of the modules
  // are the state a command line changes.

  /** The result `r` a getter hands its caller and the tokens `after` it leaves: its value
    * and the tokens after it, or its error. */
  predicate Consumed<T(==)>(r: Result<T>, g: Result<Got<T>>, after: seq<string>)
  {
    (g.Fatal? ==> r == Fatal(g.reason)) && (g.Ok? ==> r == Ok(g.value.value) && after == g.value.rest)
  }

  /** The token list of a command line (`str_token_list_create`). */
  class TokenList {
    var tokens: seq<string>

    constructor (ts: seq<string>)
      ensures tokens == ts
    {
      tokens := ts;
    }

    /** A getter's `str_token_list_shift`: the field read is taken off the list. */
    method Shift<T(==)>(g: Result<Got<T>>) returns (r: Result<T>)
      modifies this
      ensures Consumed(r, g, tokens)
    {
      if g.Fatal? {
        return Fatal(g.reason);
      }
      tokens := g.value.rest;
      r := Ok(g.value.value);
    }
  }

  /** The caches of the modules, one per module and each of its module's geometry, no two
    * sharing their blocks. */
  ghost predicate CachesFit(mods: seq<ModInfo>, caches: seq<Cache>)
    reads set i | 0 <= i < |caches| :: caches[i]
  {
    |caches| == |mods|
    && (forall i :: 0 <= i < |caches| ==> caches[i].Valid() && caches[i].Shape() == mods[i].geometry)
    && forall i, j :: 0 <= i < j < |caches| ==> caches[i].blocks != caches[j].blocks
  }

  /** The entry a command line writes, if any. */
  predicate Writes(r: Result<Outcome>, i: nat, si: nat, way: nat)
  {
    r.Ok? && r.value.BlockSet? && r.value.cmd.mod == i && r.value.cmd.si == si && r.value.cmd.way == way
  }

  /** `mem_system_command_handler` (command.c:302-438). SetBlock writes the tag and the state
    * of one entry; every other command changes no cache. An accepted Access line is handed
    * back for the caller to issue or put off. */
  method CommandHandler(ts: seq<string>, cycle: nat, mods: seq<ModInfo>, caches: seq<Cache>) returns (r: Result<Outcome>)
    requires ModsOk(mods) && CachesFit(mods, caches)
    modifies set i | 0 <= i < |caches| :: caches[i].blocks
    ensures r == Decide(ts, cycle, mods)
    ensures forall i, si, way :: 0 <= i < |caches| && 0 <= si < caches[i].numSets && 0 <= way < caches[i].assoc ==>
      caches[i].blocks[si, way] ==
        if Writes(r, i, si, way) then old(caches[i].blocks[si, way]).(tag := r.value.cmd.tag, state := r.value.cmd.state)
        else old(caches[i].blocks[si, way])
  {
    if |ts| == 0 {
      return Fatal("invalid command syntax");
    }
    if StartsIgnoringCase(ts[0], "Check") {
      return Ok(Deferred);
    }
    var tl := new TokenList(ts[1..]);
    if SameIgnoringCase(ts[0], "SetBlock") {
      var c := SetBlockHandler(tl, mods, caches);
      if c.Fatal? {
        return Fatal(c.reason);
      }
      r := Ok(BlockSet(c.value));
    } else if SameIgnoringCase(ts[0], "SetSharers") {
      var s := SetSharersHandler(tl, mods);
      if s.Fatal? {
        return Fatal(s.reason);
      }
      r := Ok(SharersChecked);
    } else if SameIgnoringCase(ts[0], "Access") {
      r := AccessHandler(tl, mods, cycle);
    } else {
      r := Fatal("invalid command");
    }
  }

  /** The fields of a SetBlock or CheckBlock line, shifted off the list one by one. */
  method ReadBlockFields(tl: TokenList, mods: seq<ModInfo>) returns (r: Result<BlockCmd>)
    modifies tl
    ensures r == BlockFields(old(tl.tokens), mods)
  {
    var m := tl.Shift(GetMod(tl.tokens, mods));
    if m.Fatal? {
      return Fatal(m.reason);
    }
    var sw := tl.Shift(GetSetWay(tl.tokens, mods, m.value));
    if sw.Fatal? {
      return Fatal(sw.reason);
    }
    var t := tl.Shift(GetHex(tl.tokens));
    if t.Fatal? {
      return Fatal(t.reason);
    }
    var st := tl.Shift(GetState(tl.tokens));
    if st.Fatal? {
      return Fatal(st.reason);
    }
    var e := EndOfLine(tl.tokens);
    if e.Fatal? {
      return Fatal(e.reason);
    }
    r := Ok(BlockCmd(m.value.value, sw.value.0, sw.value.1, t.value, st.value));
  }

  /** SetBlock (command.c:328-364): reads the fields, checks the tag, and writes the entry. */
  method SetBlockHandler(tl: TokenList, mods: seq<ModInfo>, caches: seq<Cache>) returns (r: Result<BlockCmd>)
    requires ModsOk(mods) && CachesFit(mods, caches)
    modifies tl, set i | 0 <= i < |caches| :: caches[i].blocks
    ensures r == SetBlockCommand(old(tl.tokens), mods)
    ensures forall i, si, way :: 0 <= i < |caches| && 0 <= si < caches[i].numSets && 0 <= way < caches[i].assoc ==>
      caches[i].blocks[si, way] ==
        if r.Ok? && i == r.value.mod && si == r.value.si && way == r.value.way
        then old(caches[i].blocks[si, way]).(tag := r.value.tag, state := r.value.state)
        else old(caches[i].blocks[si, way])
  {
    var c := ReadBlockFields(tl, mods);
    if c.Fatal? {
      return Fatal(c.reason);
    }
    var cmd := c.value;
    var fits := BlockFits(mods[cmd.mod], cmd.si, cmd.tag);
    if fits.Fatal? {
      return Fatal(fits.reason);
    }
    caches[cmd.mod].SetBlock(cmd.si, cmd.way, cmd.tag, cmd.state);
    r := Ok(cmd);
  }

  /** SetSharers (command.c:366-397): the fields, then one sharer per remaining token; a
    * sharer "None" is skipped, any other must be an immediate higher-level module. */
  method SetSharersHandler(tl: TokenList, mods: seq<ModInfo>) returns (r: Result<()>)
    modifies tl
    ensures r == SetSharersCommand(old(tl.tokens), mods)
  {
    var m := tl.Shift(GetMod(tl.tokens, mods));
    if m.Fatal? {
      return Fatal(m.reason);
    }
    var sw := tl.Shift(GetSetWay(tl.tokens, mods, m.value));
    if sw.Fatal? {
      return Fatal(sw.reason);
    }
    var mod := m.value.value;
    var sb := tl.Shift(GetSubBlock(tl.tokens, mods[mod]));
    if sb.Fatal? {
      return Fatal(sb.reason);
    }
    var e := Expect(tl.tokens);
    if e.Fatal? {
      return Fatal(e.reason);
    }
    ghost var sharers := tl.tokens;
    while |tl.tokens| > 0
      invariant SharersOk(tl.tokens, mods, mod) == SharersOk(sharers, mods, mod)
      decreases |tl.tokens|
    {
      ghost var before := tl.tokens;
      var sh := tl.Shift(GetMod(tl.tokens, mods));
      if sh.Fatal? {
        return Fatal(sh.reason);
      }
      if sh.value.Some? && !IsHigherOf(mods, sh.value.value, mod) {
        return Fatal("not a higher-level module");
      }
      assert |tl.tokens| < |before|;
    }
    r := Ok(());
  }

  /** Access (command.c:400-428), with a module required and every access kind recognised. */
  method AccessHandler(tl: TokenList, mods: seq<ModInfo>, cycle: nat) returns (r: Result<Outcome>)
    modifies tl
    ensures r == AccessCommand(old(tl.tokens), mods, cycle)
  {
    var m := tl.Shift(GetMod(tl.tokens, mods));
    if m.Fatal? {
      return Fatal(m.reason);
    }
    if m.value.None? {
      return Fatal("invalid module");
    }
    var c := tl.Shift(GetCycle(tl.tokens));
    if c.Fatal? {
      return Fatal(c.reason);
    }
    var k := tl.Shift(GetAccess(tl.tokens));
    if k.Fatal? {
      return Fatal(k.reason);
    }
    var a := tl.Shift(GetHex(tl.tokens));
    if a.Fatal? {
      return Fatal(a.reason);
    }
    if c.value > cycle {
      r := Ok(Rescheduled(c.value - cycle));
    } else {
      r := Ok(Accessed(m.value.value, k.value, a.value));
    }
  }

  /** `mem_system_end_command_handler` (command.c:444-604): `failed` is the verdict of a
    * CheckBlock line against the entry the cache holds. */
  method EndCommandHandler(ts: seq<string>, mods: seq<ModInfo>, caches: seq<Cache>) returns (r: Result<EndOutcome>, failed: bool)
    requires ModsOk(mods) && CachesFit(mods, caches)
    ensures r == EndDecide(ts, mods)
    ensures failed <==> (r.Ok? && r.value.BlockCheck? &&
      CheckBlockFails(r.value.cmd, caches[r.value.cmd.mod].blocks[r.value.cmd.si, r.value.cmd.way]))
  {
    failed := false;
    var tl := new TokenList(ts);
    var cmd := tl.Shift(GetString(tl.tokens));
    if cmd.Fatal? {
      return Fatal(cmd.reason), false;
    }
    if SameIgnoringCase(cmd.value, "CheckBlock") {
      var c := ReadBlockFields(tl, mods);
      if c.Fatal? {
        return Fatal(c.reason), false;
      }
      var serves := ServesCheck(mods[c.value.mod], c.value.tag);
      if serves.Fatal? {
        return Fatal(serves.reason), false;
      }
      var stored := caches[c.value.mod].blocks[c.value.si, c.value.way];
      if stored.tag != c.value.tag {
        failed := true;
      }
      if stored.state != c.value.state {
        failed := true;
      }
      r := Ok(BlockCheck(c.value));
    } else if SameIgnoringCase(cmd.value, "CheckLink") {
      r := CheckLinkHandler(tl, mods);
    } else {
      r := Fatal("invalid command");
    }
  }

  /** The fields of CheckLink (command.c:535-545). */
  method CheckLinkHandler(tl: TokenList, mods: seq<ModInfo>) returns (r: Result<EndOutcome>)
    modifies tl
    ensures r == CheckLinkCommand(old(tl.tokens), mods)
  {
    var m := tl.Shift(GetMod(tl.tokens, mods));
    if m.Fatal? {
      return Fatal(m.reason);
    }
    var h := tl.Shift(GetHighLow(tl.tokens));
    if h.Fatal? {
      return Fatal(h.reason);
    }
    var i := tl.Shift(GetInOut(tl.tokens));
    if i.Fatal? {
      return Fatal(i.reason);
    }
    var e := tl.Shift(GetString(tl.tokens));
    if e.Fatal? {
      return Fatal(e.reason);
    }
    r := Ok(LinkCheck(m.value, h.value, i.value, UnsignedAtoll(e.value)));
  }
}
