/** Size-prefixed item arrays of the monitor protocol, and the register commands built on them. */
module MonitorItems {
  import opened Common
  import opened Bytes

  // ---------- Item arrays ----------

  predicate IsItem(item: Bytes) { 1 <= |item| <= 255 }

  predicate AreItems(items: seq<Bytes>) { |items| < U16_LIMIT && forall i :: i in items ==> IsItem(i) }

  function EncodeAll(items: seq<Bytes>): Bytes
    requires forall i :: i in items ==> IsItem(i)
  {
    if items == [] then []
    else
      assert items[0] in items && IsItem(items[0]);
      var size: byte := |items[0]|;
      [size] + items[0] + EncodeAll(items[1..])
  }

  function EncodeItems(items: seq<Bytes>): Bytes
    requires AreItems(items)
  {
    Le16(|items|) + EncodeAll(items)
  }

  /** Exactly `count` items and nothing after them. */
  function ParseCounted(data: Bytes, count: nat): Option<seq<Bytes>>
    decreases count
  {
    if count == 0 then (if data == [] then Some([]) else None)
    else if data == [] || data[0] == 0 || 1 + data[0] > |data| then None
    else
      match ParseCounted(data[1 + data[0]..], count - 1)
      case None => None
      case Some(rest) => Some([data[1..1 + data[0]]] + rest)
  }

  /** `_items`, its generator run to the end; None where it raises. */
  function ParseItems(body: Bytes): Option<seq<Bytes>> {
    if |body| < 2 then None else ParseCounted(body[2..], FromLe16(body, 0))
  }

  lemma EncodeAllHead(items: seq<Bytes>, data: Bytes, size: byte, first: Bytes, rest: Bytes)
    requires items != [] && (forall i :: i in items ==> IsItem(i))
    requires data == [size] + first + rest && |first| == size as int
    ensures data == EncodeAll(items) <==> first == items[0] && rest == EncodeAll(items[1..])
  {
    assert items[0] in items;
    var e := EncodeAll(items);
    if data == e {
      assert data[0] == size && e[0] == |items[0]|;
      assert first == data[1..1 + |first|] && items[0] == e[1..1 + |items[0]|];
      assert rest == data[1 + |first|..] && EncodeAll(items[1..]) == e[1 + |items[0]|..];
    }
  }

  lemma EncodeAllStartsWithSize(items: seq<Bytes>)
    requires items != [] && (forall i :: i in items ==> IsItem(i))
    ensures EncodeAll(items) != [] && EncodeAll(items)[0] != 0 && 1 + EncodeAll(items)[0] as int <= |EncodeAll(items)|
  {
    assert items[0] in items;
  }

  lemma {:induction false} ParseCountedIff(data: Bytes, count: nat, items: seq<Bytes>)
    ensures ParseCounted(data, count) == Some(items) <==>
            |items| == count && (forall i :: i in items ==> IsItem(i)) && data == EncodeAll(items)
    decreases count
  {
    hide EncodeAll;
    if count == 0 {
      assert items == [] ==> EncodeAll(items) == [] by { NoItems(); }
    } else if data != [] && data[0] != 0 && 1 + data[0] as int <= |data| {
      var n: nat := 1 + data[0] as int;
      var first, rest := data[1..n], data[n..];
      assert data == [data[0]] + first + rest;
      if items != [] {
        ParseCountedIff(rest, count - 1, items[1..]);
        assert items == [items[0]] + items[1..];
        if forall i :: i in items ==> IsItem(i) {
          EncodeAllHead(items, data, data[0], first, rest);
        }
      }
    } else if items != [] && (forall i :: i in items ==> IsItem(i)) {
      EncodeAllStartsWithSize(items);
    }
  }

  /** `_items` accepts exactly the encodings of lists of at most 65535 items of 1 to 255 bytes, and
      inverts that encoding. */
  lemma ItemsRoundTrip(body: Bytes, items: seq<Bytes>)
    ensures ParseItems(body) == Some(items) <==> AreItems(items) && body == EncodeItems(items)
  {
    if |body| >= 2 {
      var count := FromLe16(body, 0);
      ParseCountedIff(body[2..], count, items);
      assert body == body[0..2] + body[2..];
      if |items| < U16_LIMIT {
        Le16RoundTrip(body, 0, |items|);
        if AreItems(items) && body == EncodeItems(items) {
          assert body[0..2] == Le16(|items|) && body[2..] == EncodeAll(items);
        }
      }
    }
  }

  function Prepend(items: seq<Bytes>, parsed: Option<seq<Bytes>>): Option<seq<Bytes>> {
    if parsed.None? then None else Some(items + parsed.value)
  }

  /** What the item at `offset` does to a parse that found `items` before it. */
  lemma ItemAt(body: Bytes, offset: nat, count: nat, items: seq<Bytes>)
    requires offset <= |body| && count > 0
    ensures
      if offset == |body| || body[offset] == 0 || offset + 1 + body[offset] as int > |body|
      then ParseCounted(body[offset..], count).None?
      else
        var end := offset + 1 + body[offset] as int;
        Prepend(items, ParseCounted(body[offset..], count))
        == Prepend(items + [body[offset + 1..end]], ParseCounted(body[end..], count - 1))
  {
    var data := body[offset..];
    if offset < |body| && body[offset] != 0 && offset + 1 + body[offset] as int <= |body| {
      var end := offset + 1 + body[offset] as int;
      assert data[1..1 + data[0]] == body[offset + 1..end] && data[1 + data[0]..] == body[end..];
      var rest := ParseCounted(body[end..], count - 1);
      if rest.Some? {
        assert items + ([body[offset + 1..end]] + rest.value) == items + [body[offset + 1..end]] + rest.value;
      }
    }
  }

  lemma NothingBefore(parsed: Option<seq<Bytes>>)
    ensures Prepend([], parsed) == parsed
  {
    if parsed.Some? { assert [] + parsed.value == parsed.value; }
  }

  /** The loop of `_items`. */
  method Items(body: Bytes) returns (r: Option<seq<Bytes>>)
    ensures r == ParseItems(body)
  {
    if |body| < 2 {
      return None;
    }
    var count := FromLe16(body, 0);
    var offset := 2;
    var items: seq<Bytes> := [];
    var i := 0;
    NothingBefore(ParseItems(body));
    while i < count
      invariant 0 <= i <= count && 2 <= offset <= |body|
      invariant ParseItems(body) == Prepend(items, ParseCounted(body[offset..], count - i))
    {
      ItemAt(body, offset, count - i, items);
      if offset >= |body| {
        return None;
      }
      var size := body[offset];
      offset := offset + 1;
      var end := offset + size;
      if size == 0 || end > |body| {
        return None;
      }
      items := items + [body[offset..end]];
      offset := end;
      i := i + 1;
    }
    if offset != |body| {
      return None;
    }
    assert items + [] == items;
    return Some(items);
  }

  // ---------- Registers ----------

  /** One item of the reply to command 0x83; names are ASCII bytes. */
  datatype Register = Register(id: byte, bits: byte, name: Bytes)

  /** `item[3:].decode("ascii")` raises on a byte above 127. */
  function ParseDescription(item: Bytes): Option<Register> {
    if |item| < 3 || |item| != 3 + item[2] as int || (exists b :: b in item[3..] && b >= 128) then None
    else Some(Register(item[0], item[1], item[3..]))
  }

  function DescriptionItem(r: Register): Bytes
    requires |r.name| <= 252
  {
    var size: byte := |r.name|;
    [r.id, r.bits, size] + r.name
  }

  /** `registers_available` on the reply's body. */
  function ParseDescriptions(items: seq<Bytes>): Option<seq<Register>> {
    if items == [] then Some([])
    else
      match (ParseDescription(items[0]), ParseDescriptions(items[1..]))
      case (Some(first), Some(rest)) => Some([first] + rest)
      case _ => None
  }

  ghost predicate Describable(r: Register) { |r.name| <= 252 && forall b :: b in r.name ==> b < 128 }

  lemma {:induction false} DescriptionsRoundTrip(items: seq<Bytes>, regs: seq<Register>)
    requires forall i :: i in items ==> IsItem(i)
    ensures ParseDescriptions(items) == Some(regs) <==>
            |items| == |regs| && forall k :: 0 <= k < |regs| ==> Describable(regs[k]) && items[k] == DescriptionItem(regs[k])
  {
    if items != [] {
      assert items[0] in items;
      if regs != [] {
        DescriptionsRoundTrip(items[1..], regs[1..]);
        DescriptionRoundTrip(items[0], regs[0]);
        assert regs == [regs[0]] + regs[1..];
        assert forall k :: 0 <= k < |regs| - 1 ==> regs[1..][k] == regs[k + 1];
        if |items| == |regs| {
          assert forall k :: 0 <= k < |regs| - 1 ==> items[1..][k] == items[k + 1];
          if ParseDescriptions(items) == Some(regs) {
            forall k | 0 <= k < |regs| ensures Describable(regs[k]) && items[k] == DescriptionItem(regs[k]) {
              if k > 0 { assert regs[k] == regs[1..][k - 1] && items[k] == items[1..][k - 1]; }
            }
          }
        }
      }
    }
  }

  lemma DescriptionRoundTrip(item: Bytes, r: Register)
    requires IsItem(item)
    ensures ParseDescription(item) == Some(r) <==> Describable(r) && item == DescriptionItem(r)
  {
    if ParseDescription(item) == Some(r) {
      assert item == item[..3] + item[3..];
    }
  }

  function UpperByte(b: byte): byte { if 97 <= b <= 122 then b - 32 else b }

  /** `str.upper` on ASCII. */
  function Upper(name: Bytes): Bytes { seq(|name|, i requires 0 <= i < |name| => UpperByte(name[i])) }

  /** The same letters, capitals or not. */
  predicate SameLetters(a: Bytes, b: Bytes) {
    && |a| == |b|
    && forall i :: 0 <= i < |a| ==>
         a[i] == b[i] || (65 <= a[i] <= 90 && b[i] == a[i] + 32) || (65 <= b[i] <= 90 && a[i] == b[i] + 32)
  }

  lemma UpperIgnoresCase(a: Bytes, b: Bytes)
    ensures Upper(a) == Upper(b) <==> SameLetters(a, b)
  {
    if Upper(a) == Upper(b) {
      forall i | 0 <= i < |a| ensures UpperByte(a[i]) == UpperByte(b[i]) {
        assert Upper(a)[i] == Upper(b)[i];
      }
    }
  }

  /** `{item["name"].upper(): item for item in ...}`: a later register with the same name wins. */
  function ByName(regs: seq<Register>): map<Bytes, Register> {
    if regs == [] then map[]
    else var last := regs[|regs| - 1]; ByName(regs[..|regs| - 1])[Upper(last.name) := last]
  }

  /** Names that differ in more than case each find their own register. */
  lemma {:induction false} ByNameFinds(regs: seq<Register>)
    requires forall i, j :: 0 <= i < j < |regs| ==> !SameLetters(regs[i].name, regs[j].name)
    ensures forall k :: 0 <= k < |regs| ==>
      Upper(regs[k].name) in ByName(regs) && ByName(regs)[Upper(regs[k].name)] == regs[k]
  {
    hide Upper, SameLetters;
    if regs != [] {
      var last := regs[|regs| - 1];
      ByNameFinds(regs[..|regs| - 1]);
      forall k | 0 <= k < |regs| - 1 ensures Upper(regs[k].name) != Upper(last.name) {
        UpperIgnoresCase(regs[k].name, last.name);
      }
    }
  }

  /** A name that no register has is not found, however it is written. */
  lemma {:induction false} ByNameMisses(regs: seq<Register>, name: Bytes)
    requires forall k :: 0 <= k < |regs| ==> !SameLetters(regs[k].name, name)
    ensures Upper(name) !in ByName(regs)
  {
    hide Upper, SameLetters;
    if regs != [] {
      ByNameMisses(regs[..|regs| - 1], name);
      UpperIgnoresCase(regs[|regs| - 1].name, name);
    }
  }

  /** `registers_set` accepts a value for a register named in any mixture of capitals exactly if the register
      has at most 16 bits and the value fits them, and sets that register. */
  lemma AnyCaseSets(regs: seq<Register>, k: nat, name: Bytes, value: int)
    requires forall i, j :: 0 <= i < j < |regs| ==> !SameLetters(regs[i].name, regs[j].name)
    requires k < |regs| && SameLetters(name, regs[k].name)
    ensures Settable(name, value, ByName(regs)) <==> regs[k].bits <= 16 && 0 <= value < Pow2(regs[k].bits)
    ensures Settable(name, value, ByName(regs)) ==> SetItem(name, value, ByName(regs))[0] == regs[k].id
  {
    hide Upper, SameLetters;
    ByNameFinds(regs);
    UpperIgnoresCase(name, regs[k].name);
  }

  function Pow2(n: nat): nat { if n == 0 then 1 else 2 * Pow2(n - 1) }

  lemma {:induction false} Pow2Bound(n: nat)
    requires n <= 16
    ensures Pow2(n) <= U16_LIMIT
  {
    if n < 16 {
      Pow2Monotone(n, 16);
    }
    assert Pow2(16) == U16_LIMIT by {
      assert Pow2(4) == 16;
      assert Pow2(8) == 256;
      assert Pow2(12) == 4096;
    }
  }

  lemma {:induction false} Pow2Monotone(m: nat, n: nat)
    requires m <= n
    ensures Pow2(m) <= Pow2(n)
    decreases n - m
  {
    if m < n { Pow2Monotone(m, n - 1); }
  }

  /** A requested value that `registers_set` accepts: a known register of at most 16 bits that it fits. */
  predicate Settable(name: Bytes, value: int, metadata: map<Bytes, Register>) {
    && Upper(name) in metadata
    && metadata[Upper(name)].bits <= 16
    && 0 <= value < Pow2(metadata[Upper(name)].bits)
  }

  ghost predicate AllSettable(values: seq<(Bytes, int)>, metadata: map<Bytes, Register>) {
    forall k :: 0 <= k < |values| ==> Settable(values[k].0, values[k].1, metadata)
  }

  /** The item that sets a register: its id and the value in two bytes. */
  function SetItem(name: Bytes, value: int, metadata: map<Bytes, Register>): (item: Bytes)
    requires Settable(name, value, metadata)
    ensures |item| == 3 && IsItem(item)
    ensures item[0] == metadata[Upper(name)].id && FromLe(item[1..]) == value
  {
    var r := metadata[Upper(name)];
    Pow2Bound(r.bits);
    FromLeTwo(value % 256, value / 256);
    var item := [r.id, value % 256, value / 256];
    assert item[1..] == [value % 256, value / 256];
    item
  }

  function SetItems(values: seq<(Bytes, int)>, metadata: map<Bytes, Register>): (items: seq<Bytes>)
    requires AllSettable(values, metadata)
    ensures |items| == |values| && forall i :: i in items ==> IsItem(i)
  {
    seq(|values|, k requires 0 <= k < |values| && AllSettable(values, metadata) =>
      SetItem(values[k].0, values[k].1, metadata))
  }

  lemma {:induction false} EncodeAllAppend(items: seq<Bytes>, item: Bytes)
    requires (forall i :: i in items ==> IsItem(i)) && IsItem(item)
    ensures forall i :: i in items + [item] ==> IsItem(i)
    ensures EncodeAll(items + [item]) == EncodeAll(items) + EncodeAll([item])
  {
    if items == [] {
      assert items + [item] == [item];
    } else {
      var first, ext := items[0], items + [item];
      assert first in items && ext[0] == first && ext[1..] == items[1..] + [item];
      EncodeAllAppend(items[1..], item);
      assert ext == [first] + ext[1..];
    }
  }

  /** The loop of `registers_set` that builds the request body; None where it raises.  The body, after its
      memspace byte, parses back to exactly the requested values in order, under their registers' ids. */
  method RegistersSetBody(values: seq<(Bytes, int)>, metadata: map<Bytes, Register>, memspace: byte)
    returns (r: Option<Bytes>)
    ensures r.Some? <==> |values| < U16_LIMIT && AllSettable(values, metadata)
    ensures r.Some? ==>
      && r.value != [] && r.value[0] == memspace
      && var items := ParseItems(r.value[1..]);
      && items.Some? && |items.value| == |values|
      && (forall k :: 0 <= k < |values| ==>
            && |items.value[k]| == 3
            && items.value[k][0] == metadata[Upper(values[k].0)].id
            && FromLe(items.value[k][1..]) == values[k].1)
  {
    hide EncodeAll, ParseItems, Upper, Pow2, FromLe;
    if |values| >= U16_LIMIT {
      return None;
    }
    NoItems();
    var body := [memspace] + Le16(|values|);
    var i := 0;
    while i < |values|
      invariant 0 <= i <= |values|
      invariant AllSettable(values[..i], metadata)
      invariant body == [memspace] + Le16(|values|) + EncodeAll(SetItems(values[..i], metadata))
    {
      var (name, value) := values[i];
      var key := Upper(name);
      if key !in metadata || metadata[key].bits > 16 || !(0 <= value < Pow2(metadata[key].bits)) {
        return None;
      }
      Pow2Bound(metadata[key].bits);
      SetItemsNext(values, i, metadata);
      body := body + [3, metadata[key].id] + Le16(value);
      i := i + 1;
    }
    assert values[..i] == values;
    assert body[1..] == EncodeItems(SetItems(values, metadata));
    ItemsRoundTrip(body[1..], SetItems(values, metadata));
    return Some(body);
  }

  lemma NoItems()
    ensures EncodeAll([]) == []
  {
  }

  lemma SetItemsNext(values: seq<(Bytes, int)>, i: nat, metadata: map<Bytes, Register>)
    requires i < |values| && AllSettable(values[..i], metadata) && Settable(values[i].0, values[i].1, metadata)
    ensures values[i].1 < U16_LIMIT
    ensures AllSettable(values[..i + 1], metadata)
    ensures EncodeAll(SetItems(values[..i + 1], metadata)) ==
            EncodeAll(SetItems(values[..i], metadata))
            + [3, metadata[Upper(values[i].0)].id] + Le16(values[i].1)
  {
    var (name, value) := values[i];
    Pow2Bound(metadata[Upper(name)].bits);
    var item := SetItem(name, value, metadata);
    assert SetItems(values[..i + 1], metadata) == SetItems(values[..i], metadata) + [item];
    EncodeAllAppend(SetItems(values[..i], metadata), item);
    var one: seq<Bytes> := [item];
    assert one[1..] == [];
    assert EncodeAll([item]) == [3] + item + EncodeAll([]);
  }

  /** `{item["id"]: item for item in ...}`. */
  function ById(regs: seq<Register>): map<byte, Register> {
    if regs == [] then map[] else var last := regs[|regs| - 1]; ById(regs[..|regs| - 1])[last.id := last]
  }

  /** `registers` on the items of the reply to command 0x31; None where it raises. */
  function ParseValues(items: seq<Bytes>, byId: map<byte, Register>): Option<map<Bytes, nat>> {
    if items == [] then Some(map[])
    else
      var item := items[|items| - 1];
      match ParseValues(items[..|items| - 1], byId)
      case None => None
      case Some(values) =>
        if |item| < 2 || item[0] !in byId then None else Some(values[byId[item[0]].name := FromLe(item[1..])])
  }

  ghost predicate DistinctRegisters(regs: seq<Register>) {
    forall i, j :: 0 <= i < j < |regs| ==> regs[i].id != regs[j].id && regs[i].name != regs[j].name
  }

  lemma {:induction false} ByIdFinds(regs: seq<Register>)
    requires DistinctRegisters(regs)
    ensures forall k :: 0 <= k < |regs| ==> regs[k].id in ById(regs) && ById(regs)[regs[k].id] == regs[k]
  {
    if regs != [] {
      ByIdFinds(regs[..|regs| - 1]);
    }
  }

  /** `picks` lists positions in `all`, none twice. */
  ghost predicate DistinctPicks(picks: seq<nat>, all: seq<Register>) {
    && (forall k :: 0 <= k < |picks| ==> picks[k] < |all|)
    && (forall j, k :: 0 <= j < k < |picks| ==> picks[j] != picks[k])
  }

  /** `values` gives the reported value of each picked register under its name, and nothing else. */
  ghost predicate ReportedAs(values: map<Bytes, nat>, picks: seq<nat>, all: seq<Register>, reports: seq<Bytes>)
    requires |reports| == |picks| && forall k :: 0 <= k < |picks| ==> picks[k] < |all| && reports[k] != []
  {
    && values.Keys == (set k | 0 <= k < |picks| :: all[picks[k]].name)
    && forall k :: 0 <= k < |picks| ==>
         all[picks[k]].name in values && values[all[picks[k]].name] == FromLe(reports[k][1..])
  }

  lemma ReportedNext(
    values: map<Bytes, nat>, picks: seq<nat>, all: seq<Register>, reports: seq<Bytes>, p: nat, report: Bytes)
    requires |reports| == |picks| && forall k :: 0 <= k < |picks| ==> picks[k] < |all| && reports[k] != []
    requires ReportedAs(values, picks, all, reports)
    requires p < |all| && report != []
    requires forall k :: 0 <= k < |picks| ==> all[picks[k]].name != all[p].name
    ensures ReportedAs(values[all[p].name := FromLe(report[1..])], picks + [p], all, reports + [report])
  {
    hide FromLe;
    var picks', values' := picks + [p], values[all[p].name := FromLe(report[1..])];
    forall name | name in values'.Keys ensures exists k :: 0 <= k < |picks'| && all[picks'[k]].name == name {
      if name == all[p].name {
        assert picks'[|picks|] == p;
      } else {
        var k :| 0 <= k < |picks| && all[picks[k]].name == name;
        assert picks'[k] == picks[k];
      }
    }
  }

  /** Against an emulator that reports, in any order, some of the registers it has described, `reports[k]`
      being about register `all[picks[k]]`, `registers` returns exactly the reported value of each of them
      under its name. */
  lemma {:induction false} RegistersReadBack(picks: seq<nat>, all: seq<Register>, reports: seq<Bytes>)
    requires DistinctRegisters(all) && DistinctPicks(picks, all) && |reports| == |picks|
    requires forall k :: 0 <= k < |picks| ==> |reports[k]| >= 2 && reports[k][0] == all[picks[k]].id
    ensures
      var r := ParseValues(reports, ById(all));
      r.Some? && ReportedAs(r.value, picks, all, reports)
  {
    hide ById, FromLe, ReportedAs, DistinctRegisters, DistinctPicks;
    if picks == [] {
      ReportedNone(all);
    } else {
      var n := |picks| - 1;
      assert forall k :: 0 <= k < n ==> picks[..n][k] == picks[k] && reports[..n][k] == reports[k];
      LastPick(picks, all);
      RegistersReadBack(picks[..n], all, reports[..n]);
      ReportedNext(ParseValues(reports[..n], ById(all)).value, picks[..n], all, reports[..n], picks[n], reports[n]);
      assert picks == picks[..n] + [picks[n]] && reports == reports[..n] + [reports[n]];
    }
  }

  lemma LastPick(picks: seq<nat>, all: seq<Register>)
    requires DistinctRegisters(all) && DistinctPicks(picks, all) && picks != []
    ensures forall k :: 0 <= k < |picks| ==> picks[k] < |all|
    ensures
      var n := |picks| - 1;
      var last := all[picks[n]];
      && DistinctPicks(picks[..n], all)
      && last.id in ById(all) && ById(all)[last.id] == last
      && forall k :: 0 <= k < n ==> all[picks[k]].name != last.name
  {
    ByIdFinds(all);
    var n := |picks| - 1;
    forall k | 0 <= k < n ensures all[picks[k]].name != all[picks[n]].name {
      assert picks[k] < picks[n] || picks[n] < picks[k];
    }
  }

  lemma ReportedNone(all: seq<Register>)
    ensures ReportedAs(map[], [], all, [])
  {
  }
}
