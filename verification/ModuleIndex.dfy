/** The search for a module's call index: getModuleIndex and hasMethods of src/application.cpp. */
module ModuleIndex {
  import opened Numerals
  import MetadataV7
  import Scale

  /** One slot of the metadata's module array; `hasCalls` is what hasMethods answers for it. */
  datatype Slot = Empty | Filled(name: string, hasCalls: bool)

  const COLLECTION_SIZE := 64

  function ToLower(c: char): char {
    if 'A' <= c <= 'Z' then c + ('z' - 'Z') else c
  }

  function Lower(s: string): (r: string)
    ensures |r| == |s|
  {
    seq(|s|, i requires 0 <= i < |s| => ToLower(s[i]))
  }

  /** Equal, or the two cases of one of the letters A to Z. */
  predicate SameLetter(a: char, b: char) {
    || a == b
    || ('A' <= a <= 'Z' && b as int == a as int + 32)
    || ('A' <= b <= 'Z' && a as int == b as int + 32)
  }

  /** Lowering both names compares them letter by letter, whatever the case. */
  lemma {:induction false} LowerIgnoresCase(s: string, t: string)
    ensures Lower(s) == Lower(t) <==> |s| == |t| && forall i :: 0 <= i < |s| ==> SameLetter(s[i], t[i])
  {
    if Lower(s) == Lower(t) {
      forall i | 0 <= i < |s| ensures SameLetter(s[i], t[i]) {
        assert ToLower(s[i]) == Lower(s)[i] == Lower(t)[i] == ToLower(t[i]);
      }
    }
    if |s| == |t| && forall i :: 0 <= i < |s| ==> SameLetter(s[i], t[i]) {
      assert forall i :: 0 <= i < |s| ==> Lower(s)[i] == Lower(t)[i];
    }
  }

  predicate Named(slot: Slot) { slot.Filled? && slot.name != "" }

  predicate Matches(slot: Slot, name: string) { Named(slot) && Lower(slot.name) == Lower(name) }

  predicate Callable(slot: Slot) { Named(slot) && slot.hasCalls }

  predicate ZeroCalls(slot: Slot) { Named(slot) && !slot.hasCalls }

  predicate Nameless(slot: Slot) { !Named(slot) }

  function Count(p: Slot -> bool, slots: seq<Slot>): nat {
    if slots == [] then 0
    else Count(p, slots[..|slots| - 1]) + if p(slots[|slots| - 1]) then 1 else 0
  }

  /** The first module of that name, whatever the case of its letters. */
  ghost predicate First(slots: seq<Slot>, name: string, i: nat) {
    i < |slots| && Matches(slots[i], name) && forall j :: 0 <= j < i ==> !Matches(slots[j], name)
  }

  /** The answer when the first match is at i: the module's position, less the modules without calls up to
      and including it if those are skipped. */
  function Answer(slots: seq<Slot>, i: nat, skipZeroCalls: bool): int
    requires i < |slots|
  {
    if skipZeroCalls then i - Count(ZeroCalls, slots[..i + 1]) else i
  }

  lemma {:induction false} CountStep(p: Slot -> bool, slots: seq<Slot>, i: nat)
    requires i < |slots|
    ensures Count(p, slots[..i + 1]) == Count(p, slots[..i]) + if p(slots[i]) then 1 else 0
  {
    assert slots[..i + 1][..i] == slots[..i];
  }

  method GetModuleIndex(slots: seq<Slot>, moduleName: string, skipZeroCalls: bool) returns (moduleIndex: int)
    requires |slots| == COLLECTION_SIZE
    ensures forall i :: First(slots, moduleName, i) ==> moduleIndex == Answer(slots, i, skipZeroCalls)
    ensures (forall i :: 0 <= i < |slots| ==> !Matches(slots[i], moduleName)) ==> moduleIndex == -1
    ensures !skipZeroCalls && moduleIndex != -1 ==> moduleIndex >= 0 && First(slots, moduleName, moduleIndex)
    ensures !skipZeroCalls ==>
              (moduleIndex == -1 <==> forall i :: 0 <= i < |slots| ==> !Matches(slots[i], moduleName))
  {
    moduleIndex := -1;
    var zeroMethodModuleCount := 0;
    var moduleNameLower := Lower(moduleName);
    for i := 0 to COLLECTION_SIZE
      invariant moduleIndex == -1
      invariant zeroMethodModuleCount == Count(ZeroCalls, slots[..i])
      invariant forall j :: 0 <= j < i ==> !Matches(slots[j], moduleName)
    {
      CountStep(ZeroCalls, slots, i);
      if slots[i].Filled? && |slots[i].name| > 0 {
        var name := Lower(slots[i].name);
        if !slots[i].hasCalls {
          zeroMethodModuleCount := zeroMethodModuleCount + 1;
        }
        if moduleNameLower == name {
          moduleIndex := i;
          if skipZeroCalls {
            moduleIndex := moduleIndex - zeroMethodModuleCount;
          }
          FirstIsUnique(slots, moduleName, i);
          break;
        }
      }
    }
  }

  lemma FirstIsUnique(slots: seq<Slot>, name: string, i: nat)
    requires First(slots, name, i)
    ensures forall j :: First(slots, name, j) ==> j == i
  {
  }

  // ---------------------------------------------------------------- what the answer counts

  lemma {:induction false} EverySlotIsCounted(slots: seq<Slot>)
    ensures Count(Callable, slots) + Count(ZeroCalls, slots) + Count(Nameless, slots) == |slots|
  {
    if slots != [] {
      EverySlotIsCounted(slots[..|slots| - 1]);
    }
  }

  lemma {:induction false} NoneCounted(slots: seq<Slot>)
    ensures Count(Nameless, slots) == 0 <==> forall j :: 0 <= j < |slots| ==> Named(slots[j])
  {
    if slots != [] {
      var init := slots[..|slots| - 1];
      NoneCounted(init);
      if Count(Nameless, slots) == 0 {
        forall j | 0 <= j < |slots| ensures Named(slots[j]) {
          if j < |init| {
            assert Named(init[j]);
          }
        }
      } else if Count(Nameless, init) != 0 {
        var j :| 0 <= j < |init| && !Named(init[j]);
        assert !Named(slots[j]);
      }
    }
  }

  /** What skipping computes: the callable modules before the match and the nameless slots before it, less one
      if the match itself has no calls. */
  lemma {:induction false} AnswerCounts(slots: seq<Slot>, i: nat)
    requires i < |slots| && Named(slots[i])
    ensures Answer(slots, i, true) == Count(Callable, slots[..i]) + Count(Nameless, slots[..i])
                                      - (if Callable(slots[i]) then 0 else 1)
  {
    CountStep(ZeroCalls, slots, i);
    EverySlotIsCounted(slots[..i]);
  }

  /** When skipping, -1 is also the answer for a module without calls that comes before every module with calls
      and every nameless slot; and for no other. */
  lemma {:induction false} MinusOneIff(slots: seq<Slot>, i: nat)
    requires i < |slots| && Named(slots[i])
    ensures Answer(slots, i, true) >= -1
    ensures Answer(slots, i, true) == -1 <==> forall j :: 0 <= j <= i ==> ZeroCalls(slots[j])
  {
    CountStep(ZeroCalls, slots, i);
    AllCounted(ZeroCalls, slots, i + 1);
  }

  lemma {:induction false} AllCounted(p: Slot -> bool, slots: seq<Slot>, n: nat)
    requires n <= |slots|
    ensures Count(p, slots[..n]) <= n
    ensures Count(p, slots[..n]) == n <==> forall j :: 0 <= j < n ==> p(slots[j])
  {
    if n > 0 {
      AllCounted(p, slots, n - 1);
      CountStep(p, slots, n - 1);
    }
  }

  /** For a module that has calls the answer is the number of earlier modules with calls exactly when no
      nameless slot comes before it. */
  lemma {:induction false} CallIndexIffContiguous(slots: seq<Slot>, i: nat)
    requires i < |slots| && Callable(slots[i])
    ensures Answer(slots, i, true) == Count(Callable, slots[..i])
            <==> forall j :: 0 <= j < i ==> Named(slots[j])
  {
    AnswerCounts(slots, i);
    NoneCounted(slots[..i]);
    assert forall j :: 0 <= j < i ==> slots[..i][j] == slots[j];
  }

  // ---------------------------------------------------------------- a bijection

  /** Names come first and differ from each other, whatever their case. */
  ghost predicate WellNamed(slots: seq<Slot>) {
    && (forall i, j :: 0 <= i < j < |slots| && Named(slots[j]) ==> Named(slots[i]))
    && (forall i, j :: 0 <= i < j < |slots| && Named(slots[j]) && Named(slots[i])
                       ==> Lower(slots[i].name) != Lower(slots[j].name))
  }

  /** Every name finds its own slot. */
  lemma {:induction false} NameFindsItsSlot(slots: seq<Slot>, i: nat)
    requires WellNamed(slots) && i < |slots| && Named(slots[i])
    ensures First(slots, slots[i].name, i)
  {
    forall j | 0 <= j < i ensures !Matches(slots[j], slots[i].name) {
      assert Named(slots[j]);
    }
  }

  lemma {:induction false} CountGrows(p: Slot -> bool, slots: seq<Slot>, i: nat, j: nat)
    requires i <= j <= |slots|
    ensures Count(p, slots[..i]) <= Count(p, slots[..j])
    ensures Count(p, slots[..i]) == Count(p, slots[..j]) <==> forall k :: i <= k < j ==> !p(slots[k])
    decreases j
  {
    if i < j {
      CountGrows(p, slots, i, j - 1);
      CountStep(p, slots, j - 1);
    }
  }

  /** Two modules get the same answer exactly when the later one has no calls and no module with calls stands
      between them; otherwise the earlier one gets the smaller answer. */
  lemma {:induction false} AnswersKeepOrder(slots: seq<Slot>, i: nat, j: nat)
    requires WellNamed(slots) && i < j < |slots| && Named(slots[j])
    ensures Named(slots[i]) && Answer(slots, i, true) <= Answer(slots, j, true)
    ensures Answer(slots, i, true) == Answer(slots, j, true)
            <==> forall k :: i < k <= j ==> !Callable(slots[k])
  {
    assert Named(slots[i]);
    AnswerIsCallable(slots, i);
    AnswerIsCallable(slots, j);
    CountGrows(Callable, slots, i + 1, j + 1);
  }

  lemma {:induction false} AnswerIsCallable(slots: seq<Slot>, i: nat)
    requires WellNamed(slots) && i < |slots| && Named(slots[i])
    ensures Answer(slots, i, true) == Count(Callable, slots[..i + 1]) - 1
  {
    AnswerCounts(slots, i);
    CountStep(Callable, slots, i);
    assert forall j :: 0 <= j < i ==> Named(slots[j]);
    NoneCounted(slots[..i]);
  }

  /** Every index below the number of modules with calls is the answer for one of them. */
  lemma {:induction false} EveryCallIndexIsTaken(slots: seq<Slot>, n: nat, m: nat) returns (i: nat)
    requires WellNamed(slots) && n <= |slots| && m < Count(Callable, slots[..n])
    ensures i < n && Callable(slots[i]) && Answer(slots, i, true) == m
  {
    CountStep(Callable, slots, n - 1);
    if m < Count(Callable, slots[..n - 1]) {
      i := EveryCallIndexIsTaken(slots, n - 1, m);
    } else {
      i := n - 1;
      AnswerIsCallable(slots, i);
    }
  }

  /** Some module with calls has the answer m. */
  ghost predicate Taken(slots: seq<Slot>, m: nat) {
    exists i :: 0 <= i < |slots| && Callable(slots[i]) && Answer(slots, i, true) == m
  }

  /** The order-preserving bijection: over the modules with calls the answers increase strictly, stay below
      their number and reach every index below it. */
  lemma {:induction false} CallIndexIsABijection(slots: seq<Slot>)
    requires WellNamed(slots)
    ensures forall i, j :: 0 <= i < j < |slots| && Callable(slots[i]) && Callable(slots[j])
                           ==> Answer(slots, i, true) < Answer(slots, j, true)
    ensures forall i :: 0 <= i < |slots| && Callable(slots[i]) ==>
                          0 <= Answer(slots, i, true) < Count(Callable, slots)
    ensures forall m :: 0 <= m < Count(Callable, slots) ==> Taken(slots, m)
  {
    assert slots[..|slots|] == slots;
    forall i, j | 0 <= i < j < |slots| && Callable(slots[i]) && Callable(slots[j])
      ensures Answer(slots, i, true) < Answer(slots, j, true)
    {
      AnswersKeepOrder(slots, i, j);
    }
    forall i | 0 <= i < |slots| && Callable(slots[i])
      ensures 0 <= Answer(slots, i, true) < Count(Callable, slots)
    {
      AnswerIsCallable(slots, i);
      CountStep(Callable, slots, i);
      CountGrows(Callable, slots, i + 1, |slots|);
    }
    forall m | 0 <= m < Count(Callable, slots)
      ensures Taken(slots, m)
    {
      var i := EveryCallIndexIsTaken(slots, |slots|, m);
    }
  }

  // ---------------------------------------------------------------- on parsed metadata

  function Chars(t: seq<byte>): (s: string)
    ensures |s| == |t|
  {
    seq(|t|, i requires 0 <= i < |t| => t[i] as char)
  }

  /** The module array after the V7 parser filled its first slots. */
  function SlotsOf(modules: seq<MetadataV7.Module>): (slots: seq<Slot>)
    requires |modules| <= COLLECTION_SIZE
    ensures |slots| == COLLECTION_SIZE
    ensures forall i :: 0 <= i < |modules| ==> slots[i] == Filled(Chars(modules[i].name), modules[i].calls != [])
    ensures forall i :: |modules| <= i < |slots| ==> slots[i] == Empty
  {
    seq(COLLECTION_SIZE, i requires 0 <= i < COLLECTION_SIZE =>
      if i < |modules| then Filled(Chars(modules[i].name), modules[i].calls != []) else Empty)
  }

  /** The name a module definition has once it is parsed, and whether it has calls. */
  function NameOf(d: MetadataV7.ModuleDef): string { Chars(MetadataV7.UpToNul(d.name)) }

  predicate HasCalls(d: MetadataV7.ModuleDef) { d.calls.Some? && d.calls.value != [] }

  /** From the encoded metadata to the call index: if the names are not empty and differ, each module with
      calls is found under its name at the number of earlier modules with calls. */
  lemma {:induction false} CallIndexOfEncodedMetadata(
    magic: seq<byte>, defs: seq<MetadataV7.ModuleDef>, rest: string, upper: bool, i: nat)
    requires |magic| == 5 && MetadataV7.SmallAll(MetadataV7.SmallModule, defs) && i < |defs| <= COLLECTION_SIZE
    requires forall j :: 0 <= j < |defs| ==> NameOf(defs[j]) != ""
    requires forall j, k :: 0 <= j < k < |defs| ==> Lower(NameOf(defs[j])) != Lower(NameOf(defs[k]))
    ensures var r := MetadataV7.FillV7(Scale.Hex(MetadataV7.EncMetadata(magic, defs), upper) + rest);
            && r.Success? && |r.value.0| == |defs|
            && var slots := SlotsOf(r.value.0);
            && WellNamed(slots) && First(slots, NameOf(defs[i]), i)
            && (Callable(slots[i]) <==> HasCalls(defs[i]))
            && (HasCalls(defs[i]) ==> Answer(slots, i, true) == CallsBefore(defs[..i]))
  {
    MetadataV7.MetadataRoundTrip(magic, defs, rest, upper);
    SlotsOfDefinitions(defs, upper);
    CallIndexOfSlots(SlotsOf(MetadataV7.KeepModules(defs, upper)), defs, i);
  }

  /** Each definition has its slot, and the other slots are empty. */
  ghost predicate SlotsFor(slots: seq<Slot>, defs: seq<MetadataV7.ModuleDef>) {
    && |defs| <= |slots|
    && (forall j :: 0 <= j < |defs| ==> slots[j] == Filled(NameOf(defs[j]), HasCalls(defs[j])))
    && (forall j :: |defs| <= j < |slots| ==> slots[j] == Empty)
  }

  lemma {:induction false} SlotsOfDefinitions(defs: seq<MetadataV7.ModuleDef>, upper: bool)
    requires |defs| <= COLLECTION_SIZE
    ensures SlotsFor(SlotsOf(MetadataV7.KeepModules(defs, upper)), defs)
  {
    forall j | 0 <= j < |defs|
      ensures SlotsOf(MetadataV7.KeepModules(defs, upper))[j] == Filled(NameOf(defs[j]), HasCalls(defs[j]))
    {
      KeptModule(defs[j], upper);
    }
  }

  lemma {:induction false} CallIndexOfSlots(slots: seq<Slot>, defs: seq<MetadataV7.ModuleDef>, i: nat)
    requires SlotsFor(slots, defs) && i < |defs|
    requires forall j :: 0 <= j < |defs| ==> NameOf(defs[j]) != ""
    requires forall j, k :: 0 <= j < k < |defs| ==> Lower(NameOf(defs[j])) != Lower(NameOf(defs[k]))
    ensures WellNamed(slots) && First(slots, NameOf(defs[i]), i) && (Callable(slots[i]) <==> HasCalls(defs[i]))
    ensures HasCalls(defs[i]) ==> Answer(slots, i, true) == CallsBefore(defs[..i])
  {
    NameFindsItsSlot(slots, i);
    AnswerIsCallable(slots, i);
    CountStep(Callable, slots, i);
    SameCount(slots, defs, i);
  }

  lemma {:induction false} KeptModule(d: MetadataV7.ModuleDef, upper: bool)
    ensures var m := MetadataV7.KeepModule(d, upper);
            Chars(m.name) == NameOf(d) && (m.calls != [] <==> HasCalls(d))
  {
  }

  /** How many of the definitions have calls. */
  function CallsBefore(defs: seq<MetadataV7.ModuleDef>): nat {
    if defs == [] then 0
    else CallsBefore(defs[..|defs| - 1]) + if HasCalls(defs[|defs| - 1]) then 1 else 0
  }

  lemma {:induction false} SameCount(slots: seq<Slot>, defs: seq<MetadataV7.ModuleDef>, i: nat)
    requires i <= |defs| <= |slots|
    requires forall j :: 0 <= j < |defs| ==> slots[j] == Filled(NameOf(defs[j]), HasCalls(defs[j])) && Named(slots[j])
    ensures Count(Callable, slots[..i]) == CallsBefore(defs[..i])
  {
    if i > 0 {
      SameCount(slots, defs, i - 1);
      CountStep(Callable, slots, i - 1);
      assert defs[..i][..i - 1] == defs[..i - 1];
    }
  }
}
