/** The module walk of `validate_snapshot` in `snapshot.py`. */
module Snapshot {
  import opened Common
  import opened Bytes

  /** "VICE Snapshot File" */
  const MAGIC: Bytes := [86, 73, 67, 69, 32, 83, 110, 97, 112, 115, 104, 111, 116, 32, 70, 105, 108, 101]
  const HEADER := 16
  const REPLACEMENT := 0xFFFD

  /** A decoded name, as code points. */
  type Name = seq<nat>

  /** A module found at `pos`: 16 header bytes, then `length` bytes. */
  datatype Module = Module(name: Name, pos: nat, length: nat)

  /** `rstrip(b"\0")`. */
  function RStrip(b: Bytes): Bytes {
    if b != [] && b[|b| - 1] == 0 then RStrip(b[..|b| - 1]) else b
  }

  /** `decode("ascii", "replace")`. */
  function Decode(b: Bytes): Name { seq(|b|, i requires 0 <= i < |b| => if b[i] < 128 then b[i] as nat else REPLACEMENT) }

  /** The module whose header is at `pos`, unless the walk breaks off there. */
  function ModuleAt(data: Bytes, pos: nat): Option<Module> {
    if pos + HEADER > |data| then None
    else
      var name := Decode(RStrip(data[pos..pos + 8]));
      var length := FromLe32(data, pos + 12);
      if name == [] || pos + HEADER + length > |data| then None else Some(Module(name, pos, length))
  }

  function Walk(data: Bytes, pos: nat): seq<Module>
    decreases |data| - pos
  {
    match ModuleAt(data, pos)
    case None => []
    case Some(m) => [m] + Walk(data, pos + HEADER + m.length)
  }

  function End(m: Module): nat { m.pos + HEADER + m.length }

  datatype Validation = Malformed | Missing(names: seq<Name>) | Valid(modules: seq<Module>)

  function Names(modules: seq<Module>): seq<Name> {
    seq(|modules|, i requires 0 <= i < |modules| => modules[i].name)
  }

  function MissingFrom(required: seq<Name>, names: seq<Name>): seq<Name> {
    if required == [] then []
    else (if required[0] in names then [] else [required[0]]) + MissingFrom(required[1..], names)
  }

  predicate StartsWith(data: Bytes, text: string) {
    |text| <= |data| && forall i :: 0 <= i < |text| ==> data[i] == text[i] as int
  }

  lemma MagicIsText(data: Bytes)
    ensures MAGIC <= data <==> StartsWith(data, "VICE Snapshot File")
  {
  }

  /** `validate_snapshot` on the file's bytes. */
  method ValidateSnapshot(data: Bytes, required: seq<Name>) returns (r: Validation)
    ensures r.Malformed? <==> !StartsWith(data, "VICE Snapshot File")
    ensures !r.Malformed? ==>
      var modules := Walk(data, |MAGIC|);
      r == if forall n :: n in required ==> n in Names(modules) then Valid(modules)
           else Missing(MissingFrom(required, Names(modules)))
  {
    hide StartsWith;
    MagicIsText(data);
    if |data| < |MAGIC| || data[..|MAGIC|] != MAGIC {
      return Malformed;
    }
    var modules: seq<Module> := [];
    var pos := |MAGIC|;
    while pos + HEADER <= |data|
      invariant Walk(data, |MAGIC|) == modules + Walk(data, pos)
      decreases |data| - pos
    {
      var name := Decode(RStrip(data[pos..pos + 8]));
      var length := FromLe32(data, pos + 12);
      if name == [] || pos + HEADER + length > |data| {
        break;
      }
      modules := modules + [Module(name, pos, length)];
      pos := pos + HEADER + length;
    }
    assert Walk(data, pos) == [] && modules + [] == modules;
    var missing := MissingFrom(required, Names(modules));
    NothingMissing(required, Names(modules));
    return if missing != [] then Missing(missing) else Valid(modules);
  }

  lemma {:induction false} NothingMissing(required: seq<Name>, names: seq<Name>)
    ensures MissingFrom(required, names) == [] <==> forall n :: n in required ==> n in names
  {
    if required != [] {
      NothingMissing(required[1..], names);
      assert required == [required[0]] + required[1..];
    }
  }

  /** The modules found lie end to end from `pos`, inside the data, each with a name; and the walk stops
      only where no further module can be read. */
  lemma {:induction false} WalkTiles(data: Bytes, pos: nat)
    requires pos <= |data|
    ensures
      var ms := Walk(data, pos);
      && (ms != [] ==> ms[0].pos == pos)
      && (forall i :: 0 <= i < |ms| - 1 ==> ms[i + 1].pos == End(ms[i]))
      && (forall i :: 0 <= i < |ms| ==> End(ms[i]) <= |data| && ModuleAt(data, ms[i].pos) == Some(ms[i]) && ms[i].name != [])
      && ModuleAt(data, if ms == [] then pos else End(ms[|ms| - 1])).None?
    decreases |data| - pos
  {
    if ModuleAt(data, pos).Some? {
      var m := ModuleAt(data, pos).value;
      WalkTiles(data, End(m));
      var rest := Walk(data, End(m));
      var ms := Walk(data, pos);
      forall i | 0 <= i < |ms| - 1 ensures ms[i + 1].pos == End(ms[i]) {
        if i > 0 { assert ms[i] == rest[i - 1] && ms[i + 1] == rest[i]; }
      }
    }
  }

  lemma ModuleStays(data: Bytes, more: Bytes, pos: nat)
    requires ModuleAt(data, pos).Some?
    ensures ModuleAt(data + more, pos) == ModuleAt(data, pos)
    ensures End(ModuleAt(data, pos).value) > pos && End(ModuleAt(data, pos).value) <= |data|
    ensures ModuleAt(data, pos).value.pos == pos
  {
    assert (data + more)[pos..pos + 8] == data[pos..pos + 8];
  }

  /** Appending bytes to a file only extends the list of modules. */
  lemma {:induction false} WalkGrows(data: Bytes, more: Bytes, pos: nat)
    ensures Walk(data, pos) <= Walk(data + more, pos)
    decreases |data| - pos
  {
    hide ModuleAt;
    if ModuleAt(data, pos).Some? {
      ModuleStays(data, more, pos);
      WalkGrows(data, more, End(ModuleAt(data, pos).value));
    }
  }

  // ---------- Writing modules ----------

  /** A module as the emulator writes it; `version` is whatever stands between the name and the length. */
  datatype Source = Source(name: Bytes, version: Bytes, body: Bytes)

  ghost predicate Writable(s: Source) {
    && 1 <= |s.name| <= 8 && s.name[|s.name| - 1] != 0
    && |s.version| == 4 && |s.body| < U32_LIMIT
  }

  /** The name's bytes, with U+FFFD for those that are not ASCII. */
  ghost predicate Spells(name: Name, bytes: Bytes) {
    |name| == |bytes| && forall j :: 0 <= j < |name| ==> name[j] == if bytes[j] <= 127 then bytes[j] as int else 0xFFFD
  }

  lemma DecodeSpells(b: Bytes)
    ensures Spells(Decode(b), b)
  {
  }

  function Pad(name: Bytes): Bytes
    requires |name| <= 8
    decreases 8 - |name|
  {
    if |name| == 8 then name else Pad(name + [0])
  }

  function EncodeModule(s: Source): Bytes
    requires Writable(s)
  {
    Pad(s.name) + s.version + Le32(|s.body|) + s.body
  }

  function EncodeModules(sources: seq<Source>): Bytes
    requires forall i :: 0 <= i < |sources| ==> Writable(sources[i])
  {
    if sources == [] then [] else EncodeModule(sources[0]) + EncodeModules(sources[1..])
  }

  lemma {:induction false} PadStrips(name: Bytes)
    requires |name| <= 8
    ensures |Pad(name)| == 8 && RStrip(Pad(name)) == RStrip(name)
    decreases 8 - |name|
  {
    if |name| < 8 {
      PadStrips(name + [0]);
      assert (name + [0])[..|name|] == name;
    }
  }

  /** The header written for `s` is read back as a module of its name and length. */
  lemma ModuleRoundTrip(before: Bytes, s: Source, after: Bytes)
    requires Writable(s)
    ensures
      var data := before + EncodeModule(s) + after;
      && ModuleAt(data, |before|) == Some(Module(Decode(s.name), |before|, |s.body|))
      && |before| + HEADER + |s.body| == |before + EncodeModule(s)|
  {
    hide RStrip, Pad;
    PadStrips(s.name);
    NoTrailingNul(s.name);
    var pos := |before|;
    var data := before + EncodeModule(s) + after;
    assert data[pos..pos + 8] == Pad(s.name);
    assert data[pos + 12..pos + 16] == Le32(|s.body|);
    Le32RoundTrip(data, pos + 12, |s.body|);
  }

  lemma TooShort(data: Bytes, pos: nat)
    requires pos + HEADER > |data|
    ensures ModuleAt(data, pos).None?
  {
  }

  lemma NoTrailingNul(name: Bytes)
    requires name != [] && name[|name| - 1] != 0
    ensures RStrip(name) == name
  {
  }

  /** From any list of modules with 1 to 8 byte names not ending in NUL, followed by fewer than 16
      stray bytes, the walk recovers exactly the names and lengths, in order. */
  lemma {:induction false} WalkRecovers(before: Bytes, sources: seq<Source>, stray: Bytes)
    requires (forall i :: 0 <= i < |sources| ==> Writable(sources[i])) && |stray| < HEADER
    ensures
      var ms := Walk(before + EncodeModules(sources) + stray, |before|);
      && |ms| == |sources|
      && forall i :: 0 <= i < |sources| ==> Spells(ms[i].name, sources[i].name) && ms[i].length == |sources[i].body|
    decreases |sources|
  {
    hide ModuleAt, EncodeModule, Writable, Spells, Decode;
    var data := before + EncodeModules(sources) + stray;
    if sources == [] {
      assert data == before + stray;
      TooShort(data, |before|);
    } else {
      var s := sources[0];
      var after := EncodeModules(sources[1..]) + stray;
      assert data == before + EncodeModule(s) + after;
      ModuleRoundTrip(before, s, after);
      DecodeSpells(s.name);
      var next := before + EncodeModule(s);
      WalkRecovers(next, sources[1..], stray);
      assert data == next + EncodeModules(sources[1..]) + stray;
      var rest := Walk(data, |next|);
      assert Walk(data, |before|) == [Module(Decode(s.name), |before|, |s.body|)] + rest;
    }
  }
}
