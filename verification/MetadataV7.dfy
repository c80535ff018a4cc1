/** The V7 metadata parser: fillV7Metadata of src/metadatafactory.cpp and src/structs/metadataV7.cpp.
    Text fields are byte strings cut at the first NUL, as strcpy leaves them; the fixed-size arrays of the
    structs are sequences. */
module MetadataV7 {
  import opened Common
  import opened Numerals
  import opened Scale

  type Text = seq<byte>

  // ---------------------------------------------------------------- what the structs keep

  /** `value` and `linked` are written for maps only. A double map's second key is overwritten. */
  datatype Storage = Storage(
    name: Text, modifier: byte, hasher: byte, key: Text, value: Option<Text>, linked: Option<bool>,
    fallback: string, documentation: seq<Text>)
  datatype Call = Call(name: Text, args: seq<(Text, Text)>, documentation: seq<Text>)
  datatype Event = Event(name: Text, args: seq<Text>, documentation: seq<Text>)
  datatype Const = Const(name: Text, typeName: Text, value: string, documentation: seq<Text>)
  datatype Module = Module(
    name: Text, storage: Option<(Text, seq<Storage>)>, calls: seq<Call>, events: seq<Event>, consts: seq<Const>)

  // ---------------------------------------------------------------- fields

  /** What strcpy copies: the longest beginning without a zero byte. */
  function UpToNul(b: seq<byte>): (t: Text)
    ensures t <= b && 0 !in t && (|t| < |b| ==> b[|t|] == 0)
  {
    Before(b, 0)
  }

  function Count(n: int): nat { if n < 0 then 0 else n }

  /** A length and that many bytes, through extractString and strcpy. */
  function TextField(s: string): Result<(Text, string)> {
    var (n, s1) :- DecodeCompact(s);
    var (b, s2) :- NextBytes(s1, Count(ToInt(n)));
    Success((UpToNul(b), s2))
  }

  /** The two substr calls that cut `len * 2` characters off as raw hex; a position past the end throws. */
  function Cut(s: string, position: nat): Result<(string, string)> {
    if position > |s| then Failure else Success((Before(s[..position], '\0'), s[position..]))
  }

  /** The default value of a storage item: its length is a long. */
  function FallbackField(s: string): Result<(string, string)> {
    var (n, s1) :- DecodeCompact(s);
    Cut(s1, 2 * n % U64)
  }

  /** The value of a constant: its length is an int, and a negative position becomes a huge one. */
  function ValueField(s: string): Result<(string, string)> {
    var (n, s1) :- DecodeCompact(s);
    var position := ToInt(2 * ToInt(n));
    if position < 0 then Failure else Cut(s1, position)
  }

  type Parser<T> = string -> Result<(T, string)>

  /** A count-driven loop: n elements, one after the other. */
  function Many<T>(p: Parser<T>, n: nat, s: string): (r: Result<(seq<T>, string)>)
    ensures r.Success? ==> |r.value.0| == n
    decreases n
  {
    if n == 0 then Success(([], s))
    else
      var (x, s1) :- p(s);
      var (xs, s2) :- Many(p, n - 1, s1);
      Success(([x] + xs, s2))
  }

  /** A compact count and that many elements. `Docs` counts in a long, the others in an int. */
  function Docs(s: string): Result<(seq<Text>, string)> {
    var (n, s1) :- DecodeCompact(s);
    Many(TextField, Count(n), s1)
  }

  function Counted<T>(p: Parser<T>, s: string): Result<(seq<T>, string)> {
    var (n, s1) :- DecodeCompact(s);
    Many(p, Count(ToInt(n)), s1)
  }

  // ---------------------------------------------------------------- the four element parsers

  /** The type of a storage item: hasher, key, value, linked. */
  function StorageType(s: string): Result<((byte, Text, Option<Text>, Option<bool>), string)> {
    var (kind, s1) :- NextByte(s);
    if kind == 0 then
      var (key, s2) :- TextField(s1);
      Success(((0, key, None, None), s2))
    else
      var (hasher, s2) :- NextByte(s1);
      var (key, s3) :- TextField(s2);
      var (value, s4) :- MapValue(kind, s3);
      var (linked, s5) :- NextByte(s4);
      Success(((hasher, key, value, Some(linked != 0)), s5))
  }

  function MapValue(kind: byte, s: string): Result<(Option<Text>, string)> {
    if kind == 1 then
      var (value, s1) :- TextField(s);
      Success((Some(value), s1))
    else if kind == 2 then
      var (key2, s1) :- TextField(s);
      var (value, s2) :- TextField(s1);
      Success((Some(value), s2))
    else Success((None, s))
  }

  function GetStorage(s: string): Result<(Storage, string)> {
    var (name, s1) :- TextField(s);
    var (modifier, s2) :- NextByte(s1);
    var ((hasher, key, value, linked), s3) :- StorageType(s2);
    var (fallback, s4) :- FallbackField(s3);
    var (docs, s5) :- Docs(s4);
    Success((Storage(name, modifier, hasher, key, value, linked, fallback, docs), s5))
  }

  function Arg(s: string): Result<((Text, Text), string)> {
    var (name, s1) :- TextField(s);
    var (typeName, s2) :- TextField(s1);
    Success(((name, typeName), s2))
  }

  function GetCall(s: string): Result<(Call, string)> {
    var (name, s1) :- TextField(s);
    var (args, s2) :- Counted(Arg, s1);
    var (docs, s3) :- Docs(s2);
    Success((Call(name, args, docs), s3))
  }

  function GetEvent(s: string): Result<(Event, string)> {
    var (name, s1) :- TextField(s);
    var (args, s2) :- Counted(TextField, s1);
    var (docs, s3) :- Docs(s2);
    Success((Event(name, args, docs), s3))
  }

  function GetConst(s: string): Result<(Const, string)> {
    var (name, s1) :- TextField(s);
    var (typeName, s2) :- TextField(s1);
    var (value, s3) :- ValueField(s2);
    var (docs, s4) :- Docs(s3);
    Success((Const(name, typeName, value, docs), s4))
  }

  // ---------------------------------------------------------------- modules

  function StorageSection(s: string): Result<(Option<(Text, seq<Storage>)>, string)> {
    var (isset, s1) :- NextByte(s);
    if isset == 0 then Success((None, s1))
    else
      var (prefix, s2) :- TextField(s1);
      var (items, s3) :- Counted(GetStorage, s2);
      Success((Some((prefix, items)), s3))
  }

  function OptionalSection<T>(p: Parser<T>, s: string): Result<(seq<T>, string)> {
    var (isset, s1) :- NextByte(s);
    if isset == 0 then Success(([], s1)) else Counted(p, s1)
  }

  /** The constants are counted in a long. */
  function ConstSection(s: string): Result<(seq<Const>, string)> {
    var (n, s1) :- DecodeCompact(s);
    Many(GetConst, Count(n), s1)
  }

  function GetModule(s: string): Result<(Module, string)> {
    var (name, s1) :- TextField(s);
    var (storage, s2) :- StorageSection(s1);
    var (calls, s3) :- OptionalSection(GetCall, s2);
    var (events, s4) :- OptionalSection(GetEvent, s3);
    var (consts, s5) :- ConstSection(s4);
    Success((Module(name, storage, calls, events, consts), s5))
  }

  /** fillV7Metadata: five magic bytes, which are not looked at, and the modules. */
  function FillV7(s: string): Result<(seq<Module>, string)> {
    var (magic, s1) :- NextBytes(s, 5);
    Counted(GetModule, s1)
  }

  // ---------------------------------------------------------------- every parser consumes input

  /** A parser that, when it succeeds, has used up a whole number of bytes, and at least one. */
  ghost predicate Consumes<T>(p: Parser<T>) {
    forall s :: p(s).Success? ==> Consumed(s, p(s).value.1, 1)
  }

  lemma {:induction false} ConsumedLess(s: string, rest: string, m: nat, n: nat)
    requires Consumed(s, rest, m) && n <= m
    ensures Consumed(s, rest, n)
  {
  }

  lemma {:induction false} ManyConsumes<T>(p: Parser<T>, n: nat, s: string)
    requires Consumes(p)
    ensures Many(p, n, s).Success? ==> Consumed(s, Many(p, n, s).value.1, n)
  {
    if n > 0 && Many(p, n, s).Success? {
      var s1 := p(s).value.1;
      ManyConsumes(p, n - 1, s1);
      ConsumedTwice(s, s1, Many(p, n, s).value.1, 1, n - 1);
    }
  }

  lemma {:induction false} TextFieldConsumes()
    ensures Consumes(TextField)
  {
    forall s | TextField(s).Success? ensures Consumed(s, TextField(s).value.1, 1) {
      DecodeCompactConsumes(s);
      var (n, s1) := DecodeCompact(s).value;
      NextBytesConsumes(s1, Count(ToInt(n)));
      ConsumedTwice(s, s1, TextField(s).value.1, 1, Count(ToInt(n)));
    }
  }

  /** One more part read: the whole has consumed at least one byte. */
  lemma {:induction false} Then(s: string, mid: string, rest: string, n: nat)
    requires Consumed(s, mid, 1) && Consumed(mid, rest, n)
    ensures Consumed(s, rest, 1) && Consumed(s, rest, 1 + n)
  {
    ConsumedTwice(s, mid, rest, 1, n);
    ConsumedLess(s, rest, 1 + n, 1);
  }

  lemma {:induction false} CutConsumes(s: string, position: nat)
    requires position % 2 == 0
    ensures Cut(s, position).Success? ==> Consumed(s, Cut(s, position).value.1, 0)
  {
  }

  lemma {:induction false} FallbackConsumes(s: string)
    ensures FallbackField(s).Success? ==> Consumed(s, FallbackField(s).value.1, 1)
  {
    if FallbackField(s).Success? {
      DecodeCompactConsumes(s);
      var (n, s1) := DecodeCompact(s).value;
      EvenLong(n);
      CutConsumes(s1, 2 * n % U64);
      Then(s, s1, FallbackField(s).value.1, 0);
    }
  }

  lemma EvenLong(n: int)
    ensures 2 * n % U64 % 2 == 0
  {
    var q := 2 * n / U64;
    assert 2 * n % U64 == 2 * (n - U64 / 2 * q);
  }

  lemma EvenInt(n: int)
    ensures ToInt(2 * n) % 2 == 0
  {
    var q := 2 * n / U32;
    assert 2 * n % U32 == 2 * (n - U32 / 2 * q);
  }

  lemma {:induction false} ValueConsumes(s: string)
    ensures ValueField(s).Success? ==> Consumed(s, ValueField(s).value.1, 1)
  {
    if ValueField(s).Success? {
      DecodeCompactConsumes(s);
      var (n, s1) := DecodeCompact(s).value;
      EvenInt(ToInt(n));
      CutConsumes(s1, ToInt(2 * ToInt(n)));
      Then(s, s1, ValueField(s).value.1, 0);
    }
  }

  lemma {:induction false} DocsConsumes(s: string)
    ensures Docs(s).Success? ==> Consumed(s, Docs(s).value.1, 1 + |Docs(s).value.0|)
  {
    if Docs(s).Success? {
      DecodeCompactConsumes(s);
      TextFieldConsumes();
      var (n, s1) := DecodeCompact(s).value;
      ManyConsumes(TextField, Count(n), s1);
      Then(s, s1, Docs(s).value.1, Count(n));
    }
  }

  /** The elements of a counted list number fewer than the bytes they were read from. */
  lemma {:induction false} CountedConsumes<T>(p: Parser<T>, s: string)
    requires Consumes(p)
    ensures Counted(p, s).Success? ==> Consumed(s, Counted(p, s).value.1, 1 + |Counted(p, s).value.0|)
  {
    if Counted(p, s).Success? {
      DecodeCompactConsumes(s);
      var (n, s1) := DecodeCompact(s).value;
      ManyConsumes(p, Count(ToInt(n)), s1);
      Then(s, s1, Counted(p, s).value.1, Count(ToInt(n)));
    }
  }

  lemma {:induction false} NextByteConsumes(s: string)
    ensures NextByte(s).Success? ==> Consumed(s, NextByte(s).value.1, 1)
  {
  }

  lemma {:induction false} MapValueConsumes(kind: byte, s: string)
    ensures MapValue(kind, s).Success? ==> Consumed(s, MapValue(kind, s).value.1, 0)
  {
    if MapValue(kind, s).Success? {
      TextFieldConsumes();
      if kind == 1 {
        ConsumedLess(s, TextField(s).value.1, 1, 0);
      } else if kind == 2 {
        var s1 := TextField(s).value.1;
        var s2 := TextField(s1).value.1;
        Then(s, s1, s2, 1);
        ConsumedLess(s, s2, 1, 0);
      }
    }
  }

  lemma {:induction false} StorageTypeConsumes(s: string)
    ensures StorageType(s).Success? ==> Consumed(s, StorageType(s).value.1, 1)
  {
    if StorageType(s).Success? {
      TextFieldConsumes();
      NextByteConsumes(s);
      var (kind, s1) := NextByte(s).value;
      if kind == 0 {
        Then(s, s1, TextField(s1).value.1, 1);
      } else {
        NextByteConsumes(s1);
        var s2 := NextByte(s1).value.1;
        var s3 := TextField(s2).value.1;
        MapValueConsumes(kind, s3);
        var s4 := MapValue(kind, s3).value.1;
        NextByteConsumes(s4);
        Then(s, s1, s2, 1);
        Then(s, s2, s3, 1);
        Then(s, s3, s4, 0);
        Then(s, s4, StorageType(s).value.1, 1);
      }
    }
  }

  lemma {:induction false} GetStorageConsumes()
    ensures Consumes(GetStorage)
  {
    forall s | GetStorage(s).Success? ensures Consumed(s, GetStorage(s).value.1, 1) {
      TextFieldConsumes();
      var s1 := TextField(s).value.1;
      NextByteConsumes(s1);
      var s2 := NextByte(s1).value.1;
      StorageTypeConsumes(s2);
      var s3 := StorageType(s2).value.1;
      FallbackConsumes(s3);
      var s4 := FallbackField(s3).value.1;
      DocsConsumes(s4);
      var s5 := Docs(s4).value.1;
      Then(s, s1, s2, 1);
      Then(s, s2, s3, 1);
      Then(s, s3, s4, 1);
      Then(s, s4, s5, 1 + |Docs(s4).value.0|);
    }
  }

  lemma {:induction false} ArgConsumes()
    ensures Consumes(Arg)
  {
    forall s | Arg(s).Success? ensures Consumed(s, Arg(s).value.1, 1) {
      TextFieldConsumes();
      var s1 := TextField(s).value.1;
      Then(s, s1, TextField(s1).value.1, 1);
    }
  }

  lemma {:induction false} GetCallConsumes()
    ensures Consumes(GetCall)
  {
    forall s | GetCall(s).Success? ensures Consumed(s, GetCall(s).value.1, 1) {
      TextFieldConsumes();
      ArgConsumes();
      var s1 := TextField(s).value.1;
      CountedConsumes(Arg, s1);
      var (args, s2) := Counted(Arg, s1).value;
      DocsConsumes(s2);
      Then(s, s1, s2, 1 + |args|);
      Then(s, s2, GetCall(s).value.1, 1 + |Docs(s2).value.0|);
    }
  }

  lemma {:induction false} GetEventConsumes()
    ensures Consumes(GetEvent)
  {
    forall s | GetEvent(s).Success? ensures Consumed(s, GetEvent(s).value.1, 1) {
      TextFieldConsumes();
      var s1 := TextField(s).value.1;
      CountedConsumes(TextField, s1);
      var (args, s2) := Counted(TextField, s1).value;
      DocsConsumes(s2);
      Then(s, s1, s2, 1 + |args|);
      Then(s, s2, GetEvent(s).value.1, 1 + |Docs(s2).value.0|);
    }
  }

  lemma {:induction false} GetConstConsumes()
    ensures Consumes(GetConst)
  {
    forall s | GetConst(s).Success? ensures Consumed(s, GetConst(s).value.1, 1) {
      TextFieldConsumes();
      var s1 := TextField(s).value.1;
      var s2 := TextField(s1).value.1;
      ValueConsumes(s2);
      var s3 := ValueField(s2).value.1;
      DocsConsumes(s3);
      Then(s, s1, s2, 1);
      Then(s, s2, s3, 1);
      Then(s, s3, GetConst(s).value.1, 1 + |Docs(s3).value.0|);
    }
  }

  lemma {:induction false} StorageSectionConsumes(s: string)
    ensures StorageSection(s).Success? ==> Consumed(s, StorageSection(s).value.1, 1)
  {
    if StorageSection(s).Success? {
      NextByteConsumes(s);
      var (isset, s1) := NextByte(s).value;
      if isset != 0 {
        TextFieldConsumes();
        GetStorageConsumes();
        var s2 := TextField(s1).value.1;
        CountedConsumes(GetStorage, s2);
        Then(s, s1, s2, 1);
        Then(s, s2, StorageSection(s).value.1, 1 + |Counted(GetStorage, s2).value.0|);
      }
    }
  }

  lemma {:induction false} OptionalSectionConsumes<T>(p: Parser<T>, s: string)
    requires Consumes(p)
    ensures OptionalSection(p, s).Success? ==> Consumed(s, OptionalSection(p, s).value.1, 1)
  {
    if OptionalSection(p, s).Success? {
      NextByteConsumes(s);
      var (isset, s1) := NextByte(s).value;
      if isset != 0 {
        CountedConsumes(p, s1);
        Then(s, s1, OptionalSection(p, s).value.1, 1 + |Counted(p, s1).value.0|);
      }
    }
  }

  lemma {:induction false} ConstSectionConsumes(s: string)
    ensures ConstSection(s).Success? ==> Consumed(s, ConstSection(s).value.1, 1)
  {
    if ConstSection(s).Success? {
      GetConstConsumes();
      DecodeCompactConsumes(s);
      var (n, s1) := DecodeCompact(s).value;
      ManyConsumes(GetConst, Count(n), s1);
      Then(s, s1, ConstSection(s).value.1, Count(n));
    }
  }

  lemma {:induction false} GetModuleConsumes()
    ensures Consumes(GetModule)
  {
    forall s | GetModule(s).Success? ensures Consumed(s, GetModule(s).value.1, 1) {
      TextFieldConsumes();
      GetCallConsumes();
      GetEventConsumes();
      var s1 := TextField(s).value.1;
      StorageSectionConsumes(s1);
      var s2 := StorageSection(s1).value.1;
      OptionalSectionConsumes(GetCall, s2);
      var s3 := OptionalSection(GetCall, s2).value.1;
      OptionalSectionConsumes(GetEvent, s3);
      var s4 := OptionalSection(GetEvent, s3).value.1;
      ConstSectionConsumes(s4);
      Then(s, s1, s2, 1);
      Then(s, s2, s3, 1);
      Then(s, s3, s4, 1);
      Then(s, s4, GetModule(s).value.1, 1);
    }
  }

  /** On any text whatever, the parser either throws or leaves a suffix at an even offset, having read at
      least six bytes and one for every module. */
  lemma {:induction false} FillV7Consumes(s: string)
    ensures FillV7(s).Success? ==> Consumed(s, FillV7(s).value.1, 6 + |FillV7(s).value.0|)
  {
    if FillV7(s).Success? {
      NextBytesConsumes(s, 5);
      var s1 := NextBytes(s, 5).value.1;
      GetModuleConsumes();
      CountedConsumes(GetModule, s1);
      ConsumedTwice(s, s1, FillV7(s).value.1, 5, 1 + |FillV7(s).value.0|);
    }
  }

  // ---------------------------------------------------------------- the SCALE encoding of V7 metadata

  datatype StorageKind =
    | Plain(valueType: Text)
    | Map(hasher: byte, key: Text, mapValue: Text, linked: bool)
    | DoubleMap(hasher: byte, key1: Text, key2: Text, doubleValue: Text, key2Hasher: byte)

  datatype StorageDef = StorageDef(name: Text, modifier: byte, kind: StorageKind, fallback: seq<byte>, docs: seq<Text>)
  datatype CallDef = CallDef(name: Text, args: seq<(Text, Text)>, docs: seq<Text>)
  datatype EventDef = EventDef(name: Text, args: seq<Text>, docs: seq<Text>)
  datatype ConstDef = ConstDef(name: Text, typeName: Text, value: seq<byte>, docs: seq<Text>)
  datatype ModuleDef = ModuleDef(
    name: Text, storage: Option<(Text, seq<StorageDef>)>,
    calls: Option<seq<CallDef>>, events: Option<seq<EventDef>>, consts: seq<ConstDef>)

  /** No length or count reaches 2^30. */
  const LIMIT := 0x4000_0000

  /** A length or count. */
  function Len(n: nat): seq<byte> {
    if n < LIMIT then FewBytes(n); Compact(n) else []
  }

  lemma {:induction false} FewBytes(n: nat)
    requires n < LIMIT
    ensures |MinimalBytes(n)| <= 67
  {
    SixteenBytes(n);
  }

  function EncText(t: seq<byte>): seq<byte> { Len(|t|) + t }

  function EncAll<T>(enc: T -> seq<byte>, xs: seq<T>): seq<byte> {
    if xs == [] then [] else enc(xs[0]) + EncAll(enc, xs[1..])
  }

  function EncList<T>(enc: T -> seq<byte>, xs: seq<T>): seq<byte> { Len(|xs|) + EncAll(enc, xs) }

  function EncKind(k: StorageKind): seq<byte> {
    match k
    case Plain(v) => [0] + EncText(v)
    case Map(h, key, v, linked) => [1, h] + EncText(key) + EncText(v) + [if linked then 1 else 0]
    case DoubleMap(h, k1, k2, v, h2) => [2, h] + EncText(k1) + EncText(k2) + EncText(v) + [h2]
  }

  function EncStorage(d: StorageDef): seq<byte> {
    EncText(d.name) + [d.modifier] + EncKind(d.kind) + EncText(d.fallback) + EncList(EncText, d.docs)
  }

  function EncArg(a: (Text, Text)): seq<byte> { EncText(a.0) + EncText(a.1) }

  function EncCall(d: CallDef): seq<byte> { EncText(d.name) + EncList(EncArg, d.args) + EncList(EncText, d.docs) }

  function EncEvent(d: EventDef): seq<byte> { EncText(d.name) + EncList(EncText, d.args) + EncList(EncText, d.docs) }

  function EncConst(d: ConstDef): seq<byte> {
    EncText(d.name) + EncText(d.typeName) + EncText(d.value) + EncList(EncText, d.docs)
  }

  function EncStorageSection(o: Option<(Text, seq<StorageDef>)>): seq<byte> {
    match o
    case None => [0]
    case Some((prefix, items)) => [1] + EncText(prefix) + EncList(EncStorage, items)
  }

  function EncOptional<T>(enc: T -> seq<byte>, o: Option<seq<T>>): seq<byte> {
    match o case None => [0] case Some(xs) => [1] + EncList(enc, xs)
  }

  function EncModule(d: ModuleDef): seq<byte> {
    EncText(d.name) + EncStorageSection(d.storage) + EncOptional(EncCall, d.calls) + EncOptional(EncEvent, d.events)
    + EncList(EncConst, d.consts)
  }

  /** Magic number and version, then the modules. */
  function EncMetadata(magic: seq<byte>, modules: seq<ModuleDef>): seq<byte> { magic + EncList(EncModule, modules) }

  // ---------------------------------------------------------------- what is kept of each definition

  function KeepAll<S, T>(keep: S -> T, xs: seq<S>): (r: seq<T>)
    ensures |r| == |xs| && forall i :: 0 <= i < |xs| ==> r[i] == keep(xs[i])
  {
    seq(|xs|, i requires 0 <= i < |xs| => keep(xs[i]))
  }

  /** The four parts of a storage type that are kept. */
  function KeepKind(k: StorageKind): (byte, Text, Option<Text>, Option<bool>) {
    match k
    case Plain(v) => (0, UpToNul(v), None, None)
    case Map(h, key, v, linked) => (h, UpToNul(key), Some(UpToNul(v)), Some(linked))
    case DoubleMap(h, k1, _, v, h2) => (h, UpToNul(k1), Some(UpToNul(v)), Some(h2 != 0))
  }

  /** The default value and the value of a constant are kept as the hex text of the input. */
  function KeepStorage(d: StorageDef, upper: bool): Storage {
    var (hasher, key, value, linked) := KeepKind(d.kind);
    Storage(UpToNul(d.name), d.modifier, hasher, key, value, linked, Hex(d.fallback, upper), KeepAll(UpToNul, d.docs))
  }

  function KeepArg(a: (Text, Text)): (Text, Text) { (UpToNul(a.0), UpToNul(a.1)) }

  function KeepCall(d: CallDef): Call { Call(UpToNul(d.name), KeepAll(KeepArg, d.args), KeepAll(UpToNul, d.docs)) }

  function KeepEvent(d: EventDef): Event { Event(UpToNul(d.name), KeepAll(UpToNul, d.args), KeepAll(UpToNul, d.docs)) }

  function KeepConst(d: ConstDef, upper: bool): Const {
    Const(UpToNul(d.name), UpToNul(d.typeName), Hex(d.value, upper), KeepAll(UpToNul, d.docs))
  }

  function KeepStorages(ds: seq<StorageDef>, upper: bool): (r: seq<Storage>)
    ensures |r| == |ds| && forall i :: 0 <= i < |ds| ==> r[i] == KeepStorage(ds[i], upper)
  {
    seq(|ds|, i requires 0 <= i < |ds| => KeepStorage(ds[i], upper))
  }

  function KeepConsts(ds: seq<ConstDef>, upper: bool): (r: seq<Const>)
    ensures |r| == |ds| && forall i :: 0 <= i < |ds| ==> r[i] == KeepConst(ds[i], upper)
  {
    seq(|ds|, i requires 0 <= i < |ds| => KeepConst(ds[i], upper))
  }

  function KeepModule(d: ModuleDef, upper: bool): Module {
    Module(
      UpToNul(d.name),
      match d.storage
        case None => None
        case Some((prefix, items)) => Some((UpToNul(prefix), KeepStorages(items, upper))),
      match d.calls case None => [] case Some(xs) => KeepAll(KeepCall, xs),
      match d.events case None => [] case Some(xs) => KeepAll(KeepEvent, xs),
      KeepConsts(d.consts, upper))
  }

  function KeepModules(ds: seq<ModuleDef>, upper: bool): (r: seq<Module>)
    ensures |r| == |ds| && forall i :: 0 <= i < |ds| ==> r[i] == KeepModule(ds[i], upper)
  {
    seq(|ds|, i requires 0 <= i < |ds| => KeepModule(ds[i], upper))
  }

  // ---------------------------------------------------------------- size limits

  predicate SmallText(t: seq<byte>) { |t| < LIMIT }

  predicate SmallTexts(ts: seq<Text>) { |ts| < LIMIT && forall i :: 0 <= i < |ts| ==> SmallText(ts[i]) }

  predicate SmallKind(k: StorageKind) {
    match k
    case Plain(v) => SmallText(v)
    case Map(_, key, v, _) => SmallText(key) && SmallText(v)
    case DoubleMap(_, k1, k2, v, _) => SmallText(k1) && SmallText(k2) && SmallText(v)
  }

  predicate SmallStorage(d: StorageDef) {
    SmallText(d.name) && SmallKind(d.kind) && SmallText(d.fallback) && SmallTexts(d.docs)
  }

  predicate SmallArg(a: (Text, Text)) { SmallText(a.0) && SmallText(a.1) }

  predicate SmallAll<T>(small: T -> bool, xs: seq<T>) {
    |xs| < LIMIT && forall i :: 0 <= i < |xs| ==> small(xs[i])
  }

  predicate SmallCall(d: CallDef) { SmallText(d.name) && SmallAll(SmallArg, d.args) && SmallTexts(d.docs) }

  predicate SmallEvent(d: EventDef) { SmallText(d.name) && SmallTexts(d.args) && SmallTexts(d.docs) }

  predicate SmallConst(d: ConstDef) {
    SmallText(d.name) && SmallText(d.typeName) && SmallText(d.value) && SmallTexts(d.docs)
  }

  predicate SmallModule(d: ModuleDef) {
    && SmallText(d.name)
    && (d.storage.Some? ==> SmallText(d.storage.value.0) && SmallAll(SmallStorage, d.storage.value.1))
    && (d.calls.Some? ==> SmallAll(SmallCall, d.calls.value))
    && (d.events.Some? ==> SmallAll(SmallEvent, d.events.value))
    && SmallAll(SmallConst, d.consts)
  }

  // ---------------------------------------------------------------- the round trip

  /** Parsing this encoding, whatever follows it, gives this value and leaves what follows. */
  ghost predicate Reads<T>(p: Parser<T>, bytes: seq<byte>, x: T, upper: bool) {
    forall rest :: p(Hex(bytes, upper) + rest) == Success((x, rest))
  }

  lemma {:induction false} Joined(a: seq<byte>, b: seq<byte>, rest: string, upper: bool)
    ensures Hex(a + b, upper) + rest == Hex(a, upper) + (Hex(b, upper) + rest)
  {
    HexAppend(a, b, upper);
  }

  lemma {:induction false} LenReads(n: nat, rest: string, upper: bool)
    requires n < LIMIT
    ensures DecodeCompact(Hex(Len(n), upper) + rest) == Success((n, rest))
  {
    FewBytes(n);
    SmallLong(n);
    DecodeCompactOfCompact(n, rest, upper);
  }

  lemma SmallInt(n: nat)
    requires n < LIMIT
    ensures Count(ToInt(n)) == n && Count(n) == n
    ensures ToInt(2 * ToInt(n)) == 2 * n && 2 * n % U64 == 2 * n
  {
  }

  lemma {:induction false} TextReadBefore(t: seq<byte>, rest: string, upper: bool)
    requires SmallText(t)
    ensures TextField(Hex(EncText(t), upper) + rest) == Success((UpToNul(t), rest))
  {
    Joined(Len(|t|), t, rest, upper);
    LenReads(|t|, Hex(t, upper) + rest, upper);
    SmallInt(|t|);
    NextBytesOfHex(t, rest, upper);
  }

  lemma {:induction false} TextReads(t: seq<byte>, upper: bool)
    requires SmallText(t)
    ensures Reads(TextField, EncText(t), UpToNul(t), upper)
  {
    forall rest ensures TextField(Hex(EncText(t), upper) + rest) == Success((UpToNul(t), rest)) {
      TextReadBefore(t, rest, upper);
    }
  }

  lemma {:induction false} ManyCons<T>(p: Parser<T>, n: nat, s: string, x: T, s1: string, xs: seq<T>, s2: string)
    requires p(s) == Success((x, s1)) && Many(p, n, s1) == Success((xs, s2))
    ensures Many(p, n + 1, s) == Success(([x] + xs, s2))
  {
  }

  lemma {:induction false} AllRead<S, T>(
    p: Parser<T>, enc: S -> seq<byte>, keep: S -> T, xs: seq<S>, rest: string, upper: bool)
    requires forall i :: 0 <= i < |xs| ==> Reads(p, enc(xs[i]), keep(xs[i]), upper)
    ensures Many(p, |xs|, Hex(EncAll(enc, xs), upper) + rest) == Success((KeepAll(keep, xs), rest))
  {
    if xs == [] {
      assert Hex([], upper) + rest == rest;
    } else {
      var x, more := xs[0], xs[1..];
      var s1 := Hex(EncAll(enc, more), upper) + rest;
      Joined(enc(x), EncAll(enc, more), rest, upper);
      assert Reads(p, enc(x), keep(x), upper);
      assert p(Hex(enc(x), upper) + s1) == Success((keep(x), s1));
      AllRead(p, enc, keep, more, rest, upper);
      ManyCons(p, |more|, Hex(enc(x), upper) + s1, keep(x), s1, KeepAll(keep, more), rest);
      assert KeepAll(keep, xs) == [keep(x)] + KeepAll(keep, more);
    }
  }

  lemma {:induction false} ListReads<S, T>(
    p: Parser<T>, enc: S -> seq<byte>, keep: S -> T, xs: seq<S>, rest: string, upper: bool)
    requires |xs| < LIMIT && forall i :: 0 <= i < |xs| ==> Reads(p, enc(xs[i]), keep(xs[i]), upper)
    ensures Counted(p, Hex(EncList(enc, xs), upper) + rest) == Success((KeepAll(keep, xs), rest))
  {
    Joined(Len(|xs|), EncAll(enc, xs), rest, upper);
    LenReads(|xs|, Hex(EncAll(enc, xs), upper) + rest, upper);
    SmallInt(|xs|);
    AllRead(p, enc, keep, xs, rest, upper);
  }

  lemma {:induction false} DocsRead(ts: seq<Text>, rest: string, upper: bool)
    requires SmallTexts(ts)
    ensures Docs(Hex(EncList(EncText, ts), upper) + rest) == Success((KeepAll(UpToNul, ts), rest))
  {
    forall i | 0 <= i < |ts| ensures Reads(TextField, EncText(ts[i]), UpToNul(ts[i]), upper) {
      TextReads(ts[i], upper);
    }
    Joined(Len(|ts|), EncAll(EncText, ts), rest, upper);
    LenReads(|ts|, Hex(EncAll(EncText, ts), upper) + rest, upper);
    AllRead(TextField, EncText, UpToNul, ts, rest, upper);
  }

  lemma {:induction false} HexHasNoNul(b: seq<byte>, upper: bool)
    ensures '\0' !in Hex(b, upper)
  {
    if b != [] { HexHasNoNul(b[1..], upper); }
  }

  lemma {:induction false} CutReads(b: seq<byte>, rest: string, upper: bool)
    ensures Cut(Hex(b, upper) + rest, 2 * |b|) == Success((Hex(b, upper), rest))
  {
    var s := Hex(b, upper) + rest;
    assert s[..2 * |b|] == Hex(b, upper) && s[2 * |b|..] == rest;
    HexHasNoNul(b, upper);
  }

  lemma {:induction false} RawReads(b: seq<byte>, rest: string, upper: bool)
    requires SmallText(b)
    ensures FallbackField(Hex(EncText(b), upper) + rest) == Success((Hex(b, upper), rest))
    ensures ValueField(Hex(EncText(b), upper) + rest) == Success((Hex(b, upper), rest))
  {
    Joined(Len(|b|), b, rest, upper);
    LenReads(|b|, Hex(b, upper) + rest, upper);
    SmallInt(|b|);
    CutReads(b, rest, upper);
  }

  lemma {:induction false} MapReads(kind: byte, k: StorageKind, rest: string, upper: bool)
    requires SmallKind(k) && ((k.Map? && kind == 1) || (k.DoubleMap? && kind == 2))
    ensures k.Map? ==>
              MapValue(1, Hex(EncText(k.mapValue), upper) + rest) == Success((Some(UpToNul(k.mapValue)), rest))
    ensures k.DoubleMap? ==>
              MapValue(2, Hex(EncText(k.key2), upper) + (Hex(EncText(k.doubleValue), upper) + rest))
              == Success((Some(UpToNul(k.doubleValue)), rest))
  {
    if k.Map? {
      TextReadBefore(k.mapValue, rest, upper);
    } else {
      TextReadBefore(k.key2, Hex(EncText(k.doubleValue), upper) + rest, upper);
      TextReadBefore(k.doubleValue, rest, upper);
    }
  }

  lemma {:induction false} PlainReads(v: Text, rest: string, upper: bool)
    requires SmallText(v)
    ensures StorageType(Hex(EncKind(Plain(v)), upper) + rest) == Success(((0, UpToNul(v), None, None), rest))
  {
    Joined([0], EncText(v), rest, upper);
    NextByteOfHex(0, Hex(EncText(v), upper) + rest, upper);
    TextReadBefore(v, rest, upper);
  }

  /** Kind, hasher and first key of a map. */
  lemma {:induction false} MapHeadReads(kind: byte, hasher: byte, key: Text, rest: string, upper: bool)
    returns (s1: string, s2: string)
    requires SmallText(key)
    ensures NextByte(Hex([kind, hasher] + EncText(key), upper) + rest) == Success((kind, s1))
    ensures NextByte(s1) == Success((hasher, s2)) && TextField(s2) == Success((UpToNul(key), rest))
  {
    s2 := Hex(EncText(key), upper) + rest;
    s1 := Hex([hasher], upper) + s2;
    Joined([kind, hasher], EncText(key), rest, upper);
    assert [kind, hasher] == [kind] + [hasher];
    Joined([kind], [hasher], s2, upper);
    NextByteOfHex(kind, s1, upper);
    NextByteOfHex(hasher, s2, upper);
    TextReadBefore(key, rest, upper);
  }

  lemma {:induction false} MapKindReads(k: StorageKind, rest: string, upper: bool)
    requires k.Map? && SmallKind(k)
    ensures StorageType(Hex(EncKind(k), upper) + rest)
         == Success(((k.hasher, UpToNul(k.key), Some(UpToNul(k.mapValue)), Some(k.linked)), rest))
  {
    var flag: seq<byte> := [if k.linked then 1 else 0];
    var head := [1, k.hasher] + EncText(k.key);
    var s4 := Hex(flag, upper) + rest;
    var s3 := Hex(EncText(k.mapValue), upper) + s4;
    Joined(head + EncText(k.mapValue), flag, rest, upper);
    Joined(head, EncText(k.mapValue), s4, upper);
    var s1, s2 := MapHeadReads(1, k.hasher, k.key, s3, upper);
    MapReads(1, k, s4, upper);
    NextByteOfHex(flag[0], rest, upper);
  }

  lemma {:induction false} DoubleMapKindReads(k: StorageKind, rest: string, upper: bool)
    requires k.DoubleMap? && SmallKind(k)
    ensures StorageType(Hex(EncKind(k), upper) + rest)
         == Success(((k.hasher, UpToNul(k.key1), Some(UpToNul(k.doubleValue)), Some(k.key2Hasher != 0)), rest))
  {
    var head := [2, k.hasher] + EncText(k.key1);
    var s5 := Hex([k.key2Hasher], upper) + rest;
    var s4 := Hex(EncText(k.doubleValue), upper) + s5;
    var s3 := Hex(EncText(k.key2), upper) + s4;
    Joined(head + EncText(k.key2) + EncText(k.doubleValue), [k.key2Hasher], rest, upper);
    Joined(head + EncText(k.key2), EncText(k.doubleValue), s5, upper);
    Joined(head, EncText(k.key2), s4, upper);
    var s1, s2 := MapHeadReads(2, k.hasher, k.key1, s3, upper);
    MapReads(2, k, s5, upper);
    NextByteOfHex(k.key2Hasher, rest, upper);
  }

  lemma {:induction false} KindReads(k: StorageKind, rest: string, upper: bool)
    requires SmallKind(k)
    ensures StorageType(Hex(EncKind(k), upper) + rest) == Success((KeepKind(k), rest))
  {
    match k
    case Plain(v) => PlainReads(v, rest, upper);
    case Map(_, _, _, _) => MapKindReads(k, rest, upper);
    case DoubleMap(_, _, _, _, _) => DoubleMapKindReads(k, rest, upper);
  }

  lemma {:induction false} StorageReads(d: StorageDef, upper: bool)
    requires SmallStorage(d)
    ensures Reads(GetStorage, EncStorage(d), KeepStorage(d, upper), upper)
  {
    forall rest ensures GetStorage(Hex(EncStorage(d), upper) + rest) == Success((KeepStorage(d, upper), rest)) {
      var s4 := Hex(EncList(EncText, d.docs), upper) + rest;
      var s3 := Hex(EncText(d.fallback), upper) + s4;
      var s2 := Hex(EncKind(d.kind), upper) + s3;
      var s1 := Hex([d.modifier], upper) + s2;
      var head := EncText(d.name) + [d.modifier] + EncKind(d.kind);
      Joined(head + EncText(d.fallback), EncList(EncText, d.docs), rest, upper);
      Joined(head, EncText(d.fallback), s4, upper);
      Joined(EncText(d.name) + [d.modifier], EncKind(d.kind), s3, upper);
      Joined(EncText(d.name), [d.modifier], s2, upper);
      TextReadBefore(d.name, s1, upper);
      NextByteOfHex(d.modifier, s2, upper);
      KindReads(d.kind, s3, upper);
      RawReads(d.fallback, s4, upper);
      DocsRead(d.docs, rest, upper);
    }
  }

  lemma {:induction false} ArgReads(a: (Text, Text), upper: bool)
    requires SmallArg(a)
    ensures Reads(Arg, EncArg(a), KeepArg(a), upper)
  {
    forall rest ensures Arg(Hex(EncArg(a), upper) + rest) == Success((KeepArg(a), rest)) {
      Joined(EncText(a.0), EncText(a.1), rest, upper);
      TextReadBefore(a.0, Hex(EncText(a.1), upper) + rest, upper);
      TextReadBefore(a.1, rest, upper);
    }
  }

  lemma {:induction false} CallReads(d: CallDef, upper: bool)
    requires SmallCall(d)
    ensures Reads(GetCall, EncCall(d), KeepCall(d), upper)
  {
    forall i | 0 <= i < |d.args| ensures Reads(Arg, EncArg(d.args[i]), KeepArg(d.args[i]), upper) {
      ArgReads(d.args[i], upper);
    }
    forall rest ensures GetCall(Hex(EncCall(d), upper) + rest) == Success((KeepCall(d), rest)) {
      var s2 := Hex(EncList(EncText, d.docs), upper) + rest;
      var s1 := Hex(EncList(EncArg, d.args), upper) + s2;
      Joined(EncText(d.name) + EncList(EncArg, d.args), EncList(EncText, d.docs), rest, upper);
      Joined(EncText(d.name), EncList(EncArg, d.args), s2, upper);
      TextReadBefore(d.name, s1, upper);
      ListReads(Arg, EncArg, KeepArg, d.args, s2, upper);
      DocsRead(d.docs, rest, upper);
    }
  }

  lemma {:induction false} EventReads(d: EventDef, upper: bool)
    requires SmallEvent(d)
    ensures Reads(GetEvent, EncEvent(d), KeepEvent(d), upper)
  {
    forall i | 0 <= i < |d.args| ensures Reads(TextField, EncText(d.args[i]), UpToNul(d.args[i]), upper) {
      TextReads(d.args[i], upper);
    }
    forall rest ensures GetEvent(Hex(EncEvent(d), upper) + rest) == Success((KeepEvent(d), rest)) {
      var s2 := Hex(EncList(EncText, d.docs), upper) + rest;
      var s1 := Hex(EncList(EncText, d.args), upper) + s2;
      Joined(EncText(d.name) + EncList(EncText, d.args), EncList(EncText, d.docs), rest, upper);
      Joined(EncText(d.name), EncList(EncText, d.args), s2, upper);
      TextReadBefore(d.name, s1, upper);
      ListReads(TextField, EncText, UpToNul, d.args, s2, upper);
      DocsRead(d.docs, rest, upper);
    }
  }

  lemma {:induction false} ConstReads(d: ConstDef, upper: bool)
    requires SmallConst(d)
    ensures Reads(GetConst, EncConst(d), KeepConst(d, upper), upper)
  {
    forall rest ensures GetConst(Hex(EncConst(d), upper) + rest) == Success((KeepConst(d, upper), rest)) {
      var s3 := Hex(EncList(EncText, d.docs), upper) + rest;
      var s2 := Hex(EncText(d.value), upper) + s3;
      var s1 := Hex(EncText(d.typeName), upper) + s2;
      Joined(EncText(d.name) + EncText(d.typeName) + EncText(d.value), EncList(EncText, d.docs), rest, upper);
      Joined(EncText(d.name) + EncText(d.typeName), EncText(d.value), s3, upper);
      Joined(EncText(d.name), EncText(d.typeName), s2, upper);
      TextReadBefore(d.name, s1, upper);
      TextReadBefore(d.typeName, s2, upper);
      RawReads(d.value, s3, upper);
      DocsRead(d.docs, rest, upper);
    }
  }

  lemma {:induction false} StorageListReads(ds: seq<StorageDef>, rest: string, upper: bool)
    requires SmallAll(SmallStorage, ds)
    ensures Counted(GetStorage, Hex(EncList(EncStorage, ds), upper) + rest) == Success((KeepStorages(ds, upper), rest))
  {
    var keep := (x: StorageDef) => KeepStorage(x, upper);
    forall i | 0 <= i < |ds| ensures Reads(GetStorage, EncStorage(ds[i]), keep(ds[i]), upper) {
      StorageReads(ds[i], upper);
    }
    ListReads(GetStorage, EncStorage, keep, ds, rest, upper);
    assert KeepAll(keep, ds) == KeepStorages(ds, upper);
  }

  lemma {:induction false} StorageSectionReads(d: ModuleDef, rest: string, upper: bool)
    requires SmallModule(d)
    ensures StorageSection(Hex(EncStorageSection(d.storage), upper) + rest)
         == Success((KeepModule(d, upper).storage, rest))
  {
    match d.storage
    case None => NextByteOfHex(0, rest, upper);
    case Some((prefix, items)) =>
      var s2 := Hex(EncList(EncStorage, items), upper) + rest;
      Joined([1] + EncText(prefix), EncList(EncStorage, items), rest, upper);
      Joined([1], EncText(prefix), s2, upper);
      NextByteOfHex(1, Hex(EncText(prefix), upper) + s2, upper);
      TextReadBefore(prefix, s2, upper);
      StorageListReads(items, rest, upper);
  }

  lemma {:induction false} OptionalReads<S, T>(
    p: Parser<T>, enc: S -> seq<byte>, keep: S -> T, o: Option<seq<S>>, rest: string, upper: bool)
    requires o.Some? ==> |o.value| < LIMIT
    requires o.Some? ==> forall i :: 0 <= i < |o.value| ==> Reads(p, enc(o.value[i]), keep(o.value[i]), upper)
    ensures OptionalSection(p, Hex(EncOptional(enc, o), upper) + rest)
         == Success((if o.Some? then KeepAll(keep, o.value) else [], rest))
  {
    match o
    case None => NextByteOfHex(0, rest, upper);
    case Some(xs) =>
      Joined([1], EncList(enc, xs), rest, upper);
      NextByteOfHex(1, Hex(EncList(enc, xs), upper) + rest, upper);
      ListReads(p, enc, keep, xs, rest, upper);
  }

  lemma {:induction false} CallSectionReads(d: ModuleDef, rest: string, upper: bool)
    requires SmallModule(d)
    ensures OptionalSection(GetCall, Hex(EncOptional(EncCall, d.calls), upper) + rest)
         == Success((KeepModule(d, upper).calls, rest))
  {
    if d.calls.Some? {
      var ds := d.calls.value;
      forall i | 0 <= i < |ds| ensures Reads(GetCall, EncCall(ds[i]), KeepCall(ds[i]), upper) {
        CallReads(ds[i], upper);
      }
    }
    OptionalReads(GetCall, EncCall, KeepCall, d.calls, rest, upper);
  }

  lemma {:induction false} EventSectionReads(d: ModuleDef, rest: string, upper: bool)
    requires SmallModule(d)
    ensures OptionalSection(GetEvent, Hex(EncOptional(EncEvent, d.events), upper) + rest)
         == Success((KeepModule(d, upper).events, rest))
  {
    if d.events.Some? {
      var ds := d.events.value;
      forall i | 0 <= i < |ds| ensures Reads(GetEvent, EncEvent(ds[i]), KeepEvent(ds[i]), upper) {
        EventReads(ds[i], upper);
      }
    }
    OptionalReads(GetEvent, EncEvent, KeepEvent, d.events, rest, upper);
  }

  lemma {:induction false} ConstSectionReads(ds: seq<ConstDef>, rest: string, upper: bool)
    requires SmallAll(SmallConst, ds)
    ensures ConstSection(Hex(EncList(EncConst, ds), upper) + rest) == Success((KeepConsts(ds, upper), rest))
  {
    var keep := (x: ConstDef) => KeepConst(x, upper);
    forall i | 0 <= i < |ds| ensures Reads(GetConst, EncConst(ds[i]), keep(ds[i]), upper) {
      ConstReads(ds[i], upper);
    }
    Joined(Len(|ds|), EncAll(EncConst, ds), rest, upper);
    LenReads(|ds|, Hex(EncAll(EncConst, ds), upper) + rest, upper);
    AllRead(GetConst, EncConst, keep, ds, rest, upper);
    assert KeepAll(keep, ds) == KeepConsts(ds, upper);
  }

  lemma {:induction false} ModuleReads(d: ModuleDef, upper: bool)
    requires SmallModule(d)
    ensures Reads(GetModule, EncModule(d), KeepModule(d, upper), upper)
  {
    forall rest ensures GetModule(Hex(EncModule(d), upper) + rest) == Success((KeepModule(d, upper), rest)) {
      var a, b := EncText(d.name), EncStorageSection(d.storage);
      var c, e, f := EncOptional(EncCall, d.calls), EncOptional(EncEvent, d.events), EncList(EncConst, d.consts);
      var s4 := Hex(f, upper) + rest;
      var s3 := Hex(e, upper) + s4;
      var s2 := Hex(c, upper) + s3;
      var s1 := Hex(b, upper) + s2;
      Joined(a + b + c + e, f, rest, upper);
      Joined(a + b + c, e, s4, upper);
      Joined(a + b, c, s3, upper);
      Joined(a, b, s2, upper);
      TextReadBefore(d.name, s1, upper);
      StorageSectionReads(d, s2, upper);
      CallSectionReads(d, s3, upper);
      EventSectionReads(d, s4, upper);
      ConstSectionReads(d.consts, rest, upper);
    }
  }

  /** Parsing the SCALE encoding of any V7 metadata below the size limit, followed by any text, recovers every
      field the structs keep and leaves exactly that text. */
  lemma {:induction false} MetadataRoundTrip(magic: seq<byte>, modules: seq<ModuleDef>, rest: string, upper: bool)
    requires |magic| == 5 && SmallAll(SmallModule, modules)
    ensures FillV7(Hex(EncMetadata(magic, modules), upper) + rest) == Success((KeepModules(modules, upper), rest))
  {
    var keep := (x: ModuleDef) => KeepModule(x, upper);
    forall i | 0 <= i < |modules| ensures Reads(GetModule, EncModule(modules[i]), keep(modules[i]), upper) {
      ModuleReads(modules[i], upper);
    }
    Joined(magic, EncList(EncModule, modules), rest, upper);
    NextBytesOfHex(magic, Hex(EncList(EncModule, modules), upper) + rest, upper);
    ListReads(GetModule, EncModule, keep, modules, rest, upper);
    assert KeepAll(keep, modules) == KeepModules(modules, upper);
  }

  // ---------------------------------------------------------------- texts without a zero byte come back whole

  predicate Clean(t: seq<byte>) { 0 !in t }

  predicate CleanAll(ts: seq<Text>) { forall i :: 0 <= i < |ts| ==> Clean(ts[i]) }

  predicate CleanKind(k: StorageKind) {
    match k
    case Plain(v) => Clean(v)
    case Map(_, key, v, _) => Clean(key) && Clean(v)
    case DoubleMap(_, k1, k2, v, _) => Clean(k1) && Clean(k2) && Clean(v)
  }

  predicate CleanStorage(d: StorageDef) { Clean(d.name) && CleanKind(d.kind) && CleanAll(d.docs) }

  predicate CleanArgs(args: seq<(Text, Text)>) {
    forall i :: 0 <= i < |args| ==> Clean(args[i].0) && Clean(args[i].1)
  }

  predicate CleanCall(d: CallDef) { Clean(d.name) && CleanArgs(d.args) && CleanAll(d.docs) }

  predicate CleanEvent(d: EventDef) { Clean(d.name) && CleanAll(d.args) && CleanAll(d.docs) }

  predicate CleanConst(d: ConstDef) { Clean(d.name) && Clean(d.typeName) && CleanAll(d.docs) }

  predicate CleanModule(d: ModuleDef) {
    && Clean(d.name)
    && (d.storage.Some? ==> Clean(d.storage.value.0))
    && (d.storage.Some? ==> forall i :: 0 <= i < |d.storage.value.1| ==> CleanStorage(d.storage.value.1[i]))
    && (d.calls.Some? ==> forall i :: 0 <= i < |d.calls.value| ==> CleanCall(d.calls.value[i]))
    && (d.events.Some? ==> forall i :: 0 <= i < |d.events.value| ==> CleanEvent(d.events.value[i]))
    && (forall i :: 0 <= i < |d.consts| ==> CleanConst(d.consts[i]))
  }

  /** The parsed item has the texts and numbers of the definition. */
  predicate SameStorage(d: StorageDef, x: Storage, upper: bool) {
    && x.name == d.name && x.modifier == d.modifier && x.documentation == d.docs
    && x.fallback == Hex(d.fallback, upper)
    && match d.kind
       case Plain(v) => x.hasher == 0 && x.key == v && x.value == None && x.linked == None
       case Map(h, key, v, linked) => x.hasher == h && x.key == key && x.value == Some(v) && x.linked == Some(linked)
       case DoubleMap(h, k1, _, v, h2) =>
         x.hasher == h && x.key == k1 && x.value == Some(v) && x.linked == Some(h2 != 0)
  }

  predicate SameCall(d: CallDef, x: Call) { x.name == d.name && x.args == d.args && x.documentation == d.docs }

  predicate SameEvent(d: EventDef, x: Event) { x.name == d.name && x.args == d.args && x.documentation == d.docs }

  predicate SameConst(d: ConstDef, x: Const, upper: bool) {
    x.name == d.name && x.typeName == d.typeName && x.value == Hex(d.value, upper) && x.documentation == d.docs
  }

  predicate SameModule(d: ModuleDef, x: Module, upper: bool) {
    && x.name == d.name
    && (d.storage.Some? <==> x.storage.Some?)
    && (d.storage.Some? ==>
          var (prefix, items), (prefix', items') := d.storage.value, x.storage.value;
          && prefix' == prefix && |items'| == |items|
          && forall i :: 0 <= i < |items| ==> SameStorage(items[i], items'[i], upper))
    && (d.calls.None? ==> x.calls == [])
    && (d.calls.Some? ==>
          |x.calls| == |d.calls.value| && forall i :: 0 <= i < |x.calls| ==> SameCall(d.calls.value[i], x.calls[i]))
    && (d.events.None? ==> x.events == [])
    && (d.events.Some? ==>
          |x.events| == |d.events.value|
          && forall i :: 0 <= i < |x.events| ==> SameEvent(d.events.value[i], x.events[i]))
    && |x.consts| == |d.consts| && forall i :: 0 <= i < |x.consts| ==> SameConst(d.consts[i], x.consts[i], upper)
  }

  lemma {:induction false} KeptTexts(ts: seq<Text>)
    requires CleanAll(ts)
    ensures KeepAll(UpToNul, ts) == ts
  {
    forall i | 0 <= i < |ts| ensures KeepAll(UpToNul, ts)[i] == ts[i] {
      assert Clean(ts[i]);
    }
  }

  lemma {:induction false} KeptArgs(args: seq<(Text, Text)>)
    requires CleanArgs(args)
    ensures KeepAll(KeepArg, args) == args
  {
    forall i | 0 <= i < |args| ensures KeepAll(KeepArg, args)[i] == args[i] {
      assert Clean(args[i].0) && Clean(args[i].1);
    }
  }

  lemma {:induction false} KeptStorage(d: StorageDef, upper: bool)
    requires CleanStorage(d)
    ensures SameStorage(d, KeepStorage(d, upper), upper)
  {
    KeptTexts(d.docs);
  }

  lemma {:induction false} KeptCall(d: CallDef)
    requires CleanCall(d)
    ensures SameCall(d, KeepCall(d))
  {
    KeptArgs(d.args);
    KeptTexts(d.docs);
  }

  lemma {:induction false} KeptEvent(d: EventDef)
    requires CleanEvent(d)
    ensures SameEvent(d, KeepEvent(d))
  {
    KeptTexts(d.args);
    KeptTexts(d.docs);
  }

  lemma {:induction false} KeptConst(d: ConstDef, upper: bool)
    requires CleanConst(d)
    ensures SameConst(d, KeepConst(d, upper), upper)
  {
    KeptTexts(d.docs);
  }

  lemma {:induction false} KeptModule(d: ModuleDef, upper: bool)
    requires CleanModule(d)
    ensures SameModule(d, KeepModule(d, upper), upper)
  {
    if d.storage.Some? {
      var items := d.storage.value.1;
      forall i | 0 <= i < |items| ensures SameStorage(items[i], KeepStorages(items, upper)[i], upper) {
        KeptStorage(items[i], upper);
      }
    }
    if d.calls.Some? {
      var xs := d.calls.value;
      forall i | 0 <= i < |xs| ensures SameCall(xs[i], KeepAll(KeepCall, xs)[i]) {
        KeptCall(xs[i]);
      }
    }
    if d.events.Some? {
      var xs := d.events.value;
      forall i | 0 <= i < |xs| ensures SameEvent(xs[i], KeepAll(KeepEvent, xs)[i]) {
        KeptEvent(xs[i]);
      }
    }
    forall i | 0 <= i < |d.consts| ensures SameConst(d.consts[i], KeepConsts(d.consts, upper)[i], upper) {
      KeptConst(d.consts[i], upper);
    }
  }

  /** If no text of the definitions holds a zero byte, every name, prefix, key, value type, argument and
      documentation line that is parsed equals the one in the definition. */
  lemma {:induction false} MetadataComesBack(magic: seq<byte>, modules: seq<ModuleDef>, rest: string, upper: bool)
    requires |magic| == 5 && SmallAll(SmallModule, modules)
    requires forall i :: 0 <= i < |modules| ==> CleanModule(modules[i])
    ensures var r := FillV7(Hex(EncMetadata(magic, modules), upper) + rest);
            && r.Success? && r.value.1 == rest && |r.value.0| == |modules|
            && forall i :: 0 <= i < |modules| ==> SameModule(modules[i], r.value.0[i], upper)
  {
    MetadataRoundTrip(magic, modules, rest, upper);
    forall i | 0 <= i < |modules| ensures SameModule(modules[i], KeepModules(modules, upper)[i], upper) {
      KeptModule(modules[i], upper);
    }
  }

  // ---------------------------------------------------------------- the parser as it runs, on one shared stream

  /** One more round of a count-driven loop; a round that throws makes the whole loop throw. */
  lemma {:induction false} ManyStep<T>(p: Parser<T>, n: nat, i: nat, s: string)
    requires i < n && Many(p, i, s).Success?
    ensures var (xs, t) := Many(p, i, s).value;
            if p(t).Success? then Many(p, i + 1, s) == Success((xs + [p(t).value.0], p(t).value.1))
            else Many(p, n, s).Failure?
  {
    if i == 0 {
      OneOf(p, s);
    } else {
      var (x, s1) := p(s).value;
      ManyStep(p, n - 1, i - 1, s1);
      var (ys, t) := Many(p, i - 1, s1).value;
      assert Many(p, i, s) == Success(([x] + ys, t));
      if p(t).Success? {
        var (y, t1) := p(t).value;
        assert [x] + (ys + [y]) == ([x] + ys) + [y];
        assert Many(p, i + 1, s) == Success(([x] + (ys + [y]), t1));
      }
    }
  }

  lemma {:induction false} OneOf<T>(p: Parser<T>, s: string)
    ensures p(s).Success? ==> Many(p, 1, s) == Success(([] + [p(s).value.0], p(s).value.1))
  {
    if p(s).Success? {
      var (x, s1) := p(s).value;
      assert Many(p, 0, s1) == Success(([], s1));
      assert [x] + [] == [] + [x];
    }
  }

  method ReadText(str: Stream) returns (r: Result<Text>)
    modifies str
    ensures r.Success? <==> TextField(old(str.text)).Success?
    ensures r.Success? ==> TextField(old(str.text)) == Success((r.value, str.text))
  {
    var n :- str.DecodeCompactInteger();
    var bytes :- str.NextMany(Count(ToInt(n)));
    r := Success(UpToNul(bytes));
  }

  method ReadDocs(str: Stream) returns (r: Result<seq<Text>>)
    modifies str
    ensures r.Success? <==> Docs(old(str.text)).Success?
    ensures r.Success? ==> Docs(old(str.text)) == Success((r.value, str.text))
  {
    var n :- str.DecodeCompactInteger();
    var xs: seq<Text> := [];
    ghost var s := str.text;
    for i := 0 to Count(n)
      invariant Many(TextField, i, s) == Success((xs, str.text))
    {
      ManyStep(TextField, Count(n), i, s);
      var x :- ReadText(str);
      xs := xs + [x];
    }
    r := Success(xs);
  }

  method ReadMapValue(str: Stream, kind: byte) returns (r: Result<Option<Text>>)
    modifies str
    ensures r.Success? <==> MapValue(kind, old(str.text)).Success?
    ensures r.Success? ==> MapValue(kind, old(str.text)) == Success((r.value, str.text))
  {
    var value: Option<Text> := None;
    if kind == 1 {
      var v :- ReadText(str);
      value := Some(v);
    }
    if kind == 2 {
      var key2 :- ReadText(str);
      value := Some(key2);
      var v :- ReadText(str);
      value := Some(v);
    }
    r := Success(value);
  }

  method ReadStorageType(str: Stream) returns (r: Result<(byte, Text, Option<Text>, Option<bool>)>)
    modifies str
    ensures r.Success? <==> StorageType(old(str.text)).Success?
    ensures r.Success? ==> StorageType(old(str.text)) == Success((r.value, str.text))
  {
    var kind :- str.Next();
    var hasher: byte := 0;
    if kind != 0 {
      hasher :- str.Next();
    }
    var key :- ReadText(str);
    var value :- ReadMapValue(str, kind);
    var linked: Option<bool> := None;
    if kind != 0 {
      var b :- str.Next();
      linked := Some(b != 0);
    }
    r := Success((hasher, key, value, linked));
  }

  /** The fallback of a storage item. */
  method ReadFallback(str: Stream) returns (r: Result<string>)
    modifies str
    ensures r.Success? <==> FallbackField(old(str.text)).Success?
    ensures r.Success? ==> FallbackField(old(str.text)) == Success((r.value, str.text))
  {
    var n :- str.DecodeCompactInteger();
    var position := 2 * n % U64;
    if position > |str.text| {
      return Failure;
    }
    r := Success(Before(str.text[..position], '\0'));
    str.text := str.text[position..];
  }

  /** The value of a constant. */
  method ReadValue(str: Stream) returns (r: Result<string>)
    modifies str
    ensures r.Success? <==> ValueField(old(str.text)).Success?
    ensures r.Success? ==> ValueField(old(str.text)) == Success((r.value, str.text))
  {
    var n :- str.DecodeCompactInteger();
    var position := ToInt(2 * ToInt(n));
    if position < 0 || position > |str.text| {
      return Failure;
    }
    r := Success(Before(str.text[..position], '\0'));
    str.text := str.text[position..];
  }

  method GetStorageV7(str: Stream) returns (r: Result<Storage>)
    modifies str
    ensures r.Success? <==> GetStorage(old(str.text)).Success?
    ensures r.Success? ==> GetStorage(old(str.text)) == Success((r.value, str.text))
  {
    var name :- ReadText(str);
    var modifier :- str.Next();
    var t :- ReadStorageType(str);
    var fallback :- ReadFallback(str);
    var docs :- ReadDocs(str);
    r := Success(Storage(name, modifier, t.0, t.1, t.2, t.3, fallback, docs));
  }

  method ReadArg(str: Stream) returns (r: Result<(Text, Text)>)
    modifies str
    ensures r.Success? <==> Arg(old(str.text)).Success?
    ensures r.Success? ==> Arg(old(str.text)) == Success((r.value, str.text))
  {
    var name :- ReadText(str);
    var typeName :- ReadText(str);
    r := Success((name, typeName));
  }

  method ReadArgs(str: Stream) returns (r: Result<seq<(Text, Text)>>)
    modifies str
    ensures r.Success? <==> Counted(Arg, old(str.text)).Success?
    ensures r.Success? ==> Counted(Arg, old(str.text)) == Success((r.value, str.text))
  {
    var n :- str.DecodeCompactInteger();
    var xs: seq<(Text, Text)> := [];
    ghost var s := str.text;
    for i := 0 to Count(ToInt(n))
      invariant Many(Arg, i, s) == Success((xs, str.text))
    {
      ManyStep(Arg, Count(ToInt(n)), i, s);
      var x :- ReadArg(str);
      xs := xs + [x];
    }
    r := Success(xs);
  }

  method GetCallV7(str: Stream) returns (r: Result<Call>)
    modifies str
    ensures r.Success? <==> GetCall(old(str.text)).Success?
    ensures r.Success? ==> GetCall(old(str.text)) == Success((r.value, str.text))
  {
    var name :- ReadText(str);
    var args :- ReadArgs(str);
    var docs :- ReadDocs(str);
    r := Success(Call(name, args, docs));
  }

  method ReadArgTypes(str: Stream) returns (r: Result<seq<Text>>)
    modifies str
    ensures r.Success? <==> Counted(TextField, old(str.text)).Success?
    ensures r.Success? ==> Counted(TextField, old(str.text)) == Success((r.value, str.text))
  {
    var n :- str.DecodeCompactInteger();
    var xs: seq<Text> := [];
    ghost var s := str.text;
    for i := 0 to Count(ToInt(n))
      invariant Many(TextField, i, s) == Success((xs, str.text))
    {
      ManyStep(TextField, Count(ToInt(n)), i, s);
      var x :- ReadText(str);
      xs := xs + [x];
    }
    r := Success(xs);
  }

  method GetEventV7(str: Stream) returns (r: Result<Event>)
    modifies str
    ensures r.Success? <==> GetEvent(old(str.text)).Success?
    ensures r.Success? ==> GetEvent(old(str.text)) == Success((r.value, str.text))
  {
    var name :- ReadText(str);
    var args :- ReadArgTypes(str);
    var docs :- ReadDocs(str);
    r := Success(Event(name, args, docs));
  }

  method GetConstsV7(str: Stream) returns (r: Result<Const>)
    modifies str
    ensures r.Success? <==> GetConst(old(str.text)).Success?
    ensures r.Success? ==> GetConst(old(str.text)) == Success((r.value, str.text))
  {
    var name :- ReadText(str);
    var typeName :- ReadText(str);
    var value :- ReadValue(str);
    var docs :- ReadDocs(str);
    r := Success(Const(name, typeName, value, docs));
  }

  method ReadStorageItems(str: Stream) returns (r: Result<seq<Storage>>)
    modifies str
    ensures r.Success? <==> Counted(GetStorage, old(str.text)).Success?
    ensures r.Success? ==> Counted(GetStorage, old(str.text)) == Success((r.value, str.text))
  {
    var n :- str.DecodeCompactInteger();
    var xs: seq<Storage> := [];
    ghost var s := str.text;
    for i := 0 to Count(ToInt(n))
      invariant Many(GetStorage, i, s) == Success((xs, str.text))
    {
      ManyStep(GetStorage, Count(ToInt(n)), i, s);
      var x :- GetStorageV7(str);
      xs := xs + [x];
    }
    r := Success(xs);
  }

  method ReadCalls(str: Stream) returns (r: Result<seq<Call>>)
    modifies str
    ensures r.Success? <==> Counted(GetCall, old(str.text)).Success?
    ensures r.Success? ==> Counted(GetCall, old(str.text)) == Success((r.value, str.text))
  {
    var n :- str.DecodeCompactInteger();
    var xs: seq<Call> := [];
    ghost var s := str.text;
    for i := 0 to Count(ToInt(n))
      invariant Many(GetCall, i, s) == Success((xs, str.text))
    {
      ManyStep(GetCall, Count(ToInt(n)), i, s);
      var x :- GetCallV7(str);
      xs := xs + [x];
    }
    r := Success(xs);
  }

  method ReadEvents(str: Stream) returns (r: Result<seq<Event>>)
    modifies str
    ensures r.Success? <==> Counted(GetEvent, old(str.text)).Success?
    ensures r.Success? ==> Counted(GetEvent, old(str.text)) == Success((r.value, str.text))
  {
    var n :- str.DecodeCompactInteger();
    var xs: seq<Event> := [];
    ghost var s := str.text;
    for i := 0 to Count(ToInt(n))
      invariant Many(GetEvent, i, s) == Success((xs, str.text))
    {
      ManyStep(GetEvent, Count(ToInt(n)), i, s);
      var x :- GetEventV7(str);
      xs := xs + [x];
    }
    r := Success(xs);
  }

  method ReadConsts(str: Stream) returns (r: Result<seq<Const>>)
    modifies str
    ensures r.Success? <==> ConstSection(old(str.text)).Success?
    ensures r.Success? ==> ConstSection(old(str.text)) == Success((r.value, str.text))
  {
    var n :- str.DecodeCompactInteger();
    var xs: seq<Const> := [];
    ghost var s := str.text;
    for i := 0 to Count(n)
      invariant Many(GetConst, i, s) == Success((xs, str.text))
    {
      ManyStep(GetConst, Count(n), i, s);
      var x :- GetConstsV7(str);
      xs := xs + [x];
    }
    r := Success(xs);
  }

  method ReadStorageSection(str: Stream) returns (r: Result<Option<(Text, seq<Storage>)>>)
    modifies str
    ensures r.Success? <==> StorageSection(old(str.text)).Success?
    ensures r.Success? ==> StorageSection(old(str.text)) == Success((r.value, str.text))
  {
    var isset :- str.Next();
    if isset == 0 {
      return Success(None);
    }
    var prefix :- ReadText(str);
    var items :- ReadStorageItems(str);
    r := Success(Some((prefix, items)));
  }

  method ReadModule(str: Stream) returns (r: Result<Module>)
    modifies str
    ensures r.Success? <==> GetModule(old(str.text)).Success?
    ensures r.Success? ==> GetModule(old(str.text)) == Success((r.value, str.text))
  {
    var name :- ReadText(str);
    var storage :- ReadStorageSection(str);
    var calls: seq<Call> := [];
    var callsIsset :- str.Next();
    if callsIsset != 0 {
      calls :- ReadCalls(str);
    }
    var events: seq<Event> := [];
    var eventsIsset :- str.Next();
    if eventsIsset != 0 {
      events :- ReadEvents(str);
    }
    var consts :- ReadConsts(str);
    r := Success(Module(name, storage, calls, events, consts));
  }

  method FillV7Metadata(str: Stream) returns (r: Result<seq<Module>>)
    modifies str
    ensures r.Success? <==> FillV7(old(str.text)).Success?
    ensures r.Success? ==> FillV7(old(str.text)) == Success((r.value, str.text))
  {
    var magic :- str.NextMany(5);
    var n :- str.DecodeCompactInteger();
    var modules: seq<Module> := [];
    ghost var s := str.text;
    for i := 0 to Count(ToInt(n))
      invariant Many(GetModule, i, s) == Success((modules, str.text))
    {
      ManyStep(GetModule, Count(ToInt(n)), i, s);
      var m :- ReadModule(str);
      modules := modules + [m];
    }
    r := Success(modules);
  }
}
