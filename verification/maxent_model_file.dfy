/** The binary model format: feature ids are not written, loading numbers them anew. */
module MaxentModelFile {
  import opened Common
  import opened Utf8
  import P = MaxentParams

  const HEADER_LEN: nat := 16
  const BUFFER: nat := 4096
  const WORDS: nat := 0x1_0000_0000_0000_0000

  /** A `double`, as the eight bytes that are copied. */
  type Weight = w: seq<Byte> | |w| == 8 witness [0, 0, 0, 0, 0, 0, 0, 0]

  datatype Model = Model(preds: seq<Text>, outcomes: seq<Text>, params: P.Params, theta: seq<Weight>)

  /** What a read gives and the bytes it leaves, or nothing where the program reads past the end of the
      file, overruns its buffer or stops in an assertion. */
  datatype Read<T> = Failed | Got(value: T, rest: seq<Byte>)

  // ---------- Words ----------

  lemma EightBytes()
    ensures Values(8) == WORDS
  {
    assert Values(4) == 0x1_0000_0000;
    assert Values(5) == 256 * Values(4);
    assert Values(6) == 256 * Values(5);
    assert Values(7) == 256 * Values(6);
  }

  function TakeWord(bytes: seq<Byte>): Read<nat> {
    if |bytes| < 8 then Failed else Got(LittleEndianValue(bytes[..8]), bytes[8..])
  }

  lemma TakeWordBytes(w: nat, rest: seq<Byte>)
    requires w < WORDS
    ensures TakeWord(LittleEndian(w, 8) + rest) == Got(w, rest)
  {
    EightBytes();
    ValueOfBytes(w, 8);
    var bytes := LittleEndian(w, 8) + rest;
    assert bytes[..8] == LittleEndian(w, 8) && bytes[8..] == rest;
  }

  // ---------- Names ----------

  function NameBytes(name: Text): seq<Byte> {
    LittleEndian(|name|, 8) + name
  }

  function NamesBytes(names: seq<Text>): seq<Byte> {
    if names == [] then [] else NameBytes(names[0]) + NamesBytes(names[1..])
  }

  function TakeName(bytes: seq<Byte>): Read<Text> {
    match TakeWord(bytes)
    case Failed => Failed
    case Got(len, rest) => if BUFFER < len || |rest| < len then Failed else Got(rest[..len], rest[len..])
  }

  /** `ItemMap::add`: a known item keeps its id. */
  function Add(items: seq<Text>, item: Text): (r: seq<Text>)
    ensures Distinct(items) ==> Distinct(r)
  {
    if item in items then items else items + [item]
  }

  function TakeNames(count: nat, bytes: seq<Byte>, items: seq<Text>): Read<seq<Text>> {
    if count == 0 then Got(items, bytes)
    else match TakeName(bytes)
      case Failed => Failed
      case Got(name, rest) => TakeNames(count - 1, rest, Add(items, name))
  }

  ghost predicate Distinct(names: seq<Text>) {
    forall i, j :: 0 <= i < j < |names| ==> names[i] != names[j]
  }

  ghost predicate Short(names: seq<Text>) {
    forall i :: 0 <= i < |names| ==> |names[i]| <= BUFFER
  }

  lemma TakeNameBytes(name: Text, rest: seq<Byte>)
    requires |name| <= BUFFER
    ensures TakeName(NameBytes(name) + rest) == Got(name, rest)
  {
    assert NameBytes(name) + rest == LittleEndian(|name|, 8) + (name + rest);
    TakeWordBytes(|name|, name + rest);
    assert (name + rest)[..|name|] == name && (name + rest)[|name|..] == rest;
  }

  lemma {:induction false} TakeNamesBytes(names: seq<Text>, rest: seq<Byte>, items: seq<Text>)
    requires Distinct(items + names) && Short(names)
    ensures TakeNames(|names|, NamesBytes(names) + rest, items) == Got(items + names, rest)
  {
    hide TakeName, NameBytes, Distinct;
    if names == [] {
      assert NamesBytes(names) + rest == rest && items + names == items;
    } else {
      var name, others := names[0], names[1..];
      assert NamesBytes(names) + rest == NameBytes(name) + (NamesBytes(others) + rest);
      TakeNameBytes(name, NamesBytes(others) + rest);
      NewName(items, names);
      assert (items + [name]) + others == items + names;
      TakeNamesBytes(others, rest, items + [name]);
    }
  }

  lemma NewName(items: seq<Text>, names: seq<Text>)
    requires Distinct(items + names) && names != []
    ensures names[0] !in items
  {
    var all := items + names;
    assert all[|items|] == names[0];
    assert forall i :: 0 <= i < |items| ==> items[i] == all[i];
  }

  lemma {:induction false} TakenNames(count: nat, bytes: seq<Byte>, items: seq<Text>)
    requires Distinct(items) && Short(items)
    ensures var r := TakeNames(count, bytes, items); r.Got? ==> Distinct(r.value) && Short(r.value)
  {
    hide TakeName, Add, Distinct, Short;
    if count > 0 {
      var r := TakeName(bytes);
      if r.Got? {
        TakenName(bytes, items);
        TakenNames(count - 1, r.rest, Add(items, r.value));
      }
    }
  }

  lemma TakenName(bytes: seq<Byte>, items: seq<Text>)
    requires TakeName(bytes).Got? && Short(items)
    ensures Short(Add(items, TakeName(bytes).value))
  {
    hide TakeWord;
  }

  // ---------- Parameters ----------

  function RowBytes(row: seq<P.Entry>): seq<Byte> {
    if row == [] then [] else LittleEndian(row[0].oid, 8) + RowBytes(row[1..])
  }

  function ParamsBytes(params: P.Params): seq<Byte> {
    if params == [] then [] else LittleEndian(|params[0]|, 8) + RowBytes(params[0]) + ParamsBytes(params[1..])
  }

  function TakeRow(len: nat, bytes: seq<Byte>, row: seq<P.Entry>, fid: nat): Read<seq<P.Entry>> {
    if len == 0 then Got(row, bytes)
    else match TakeWord(bytes)
      case Failed => Failed
      case Got(oid, rest) => TakeRow(len - 1, rest, row + [P.Entry(oid, fid)], fid + 1)
  }

  function TakeParams(count: nat, bytes: seq<Byte>, params: P.Params, fid: nat): Read<P.Params> {
    if count == 0 then Got(params, bytes)
    else match TakeWord(bytes)
      case Failed => Failed
      case Got(len, rest) =>
        match TakeRow(len, rest, [], fid)
        case Failed => Failed
        case Got(row, rest') => TakeParams(count - 1, rest', params + [row], fid + |row|)
  }

  /** The outcomes of a row, numbered on from `fid`. */
  function RenumberedRow(row: seq<P.Entry>, fid: nat): (r: seq<P.Entry>)
    ensures |r| == |row|
    ensures forall j :: 0 <= j < |row| ==> r[j] == P.Entry(row[j].oid, fid + j)
  {
    if row == [] then [] else [P.Entry(row[0].oid, fid)] + RenumberedRow(row[1..], fid + 1)
  }

  function Renumbered(params: P.Params, fid: nat): (r: P.Params)
    ensures |r| == |params|
  {
    if params == [] then []
    else [RenumberedRow(params[0], fid)] + Renumbered(params[1..], fid + |params[0]|)
  }

  ghost predicate FittingRow(row: seq<P.Entry>) {
    |row| < WORDS && forall j :: 0 <= j < |row| ==> row[j].oid < WORDS
  }

  ghost predicate FittingParams(params: P.Params) {
    forall p :: 0 <= p < |params| ==> FittingRow(params[p])
  }

  lemma {:induction false} TakeRowBytes(row: seq<P.Entry>, rest: seq<Byte>, before: seq<P.Entry>, fid: nat)
    requires forall j :: 0 <= j < |row| ==> row[j].oid < WORDS
    ensures TakeRow(|row|, RowBytes(row) + rest, before, fid) == Got(before + RenumberedRow(row, fid), rest)
  {
    if row == [] {
      assert RowBytes(row) + rest == rest && before + RenumberedRow(row, fid) == before;
    } else {
      var first := P.Entry(row[0].oid, fid);
      assert RowBytes(row) + rest == LittleEndian(row[0].oid, 8) + (RowBytes(row[1..]) + rest);
      TakeWordBytes(row[0].oid, RowBytes(row[1..]) + rest);
      TakeRowBytes(row[1..], rest, before + [first], fid + 1);
      assert (before + [first]) + RenumberedRow(row[1..], fid + 1) == before + RenumberedRow(row, fid);
    }
  }

  lemma ParamsBytesFirst(params: P.Params, rest: seq<Byte>)
    requires params != []
    ensures ParamsBytes(params) + rest
         == LittleEndian(|params[0]|, 8) + (RowBytes(params[0]) + (ParamsBytes(params[1..]) + rest))
  {
    hide LittleEndian, RowBytes;
  }

  /** One turn of the loop over the rows. */
  lemma TakeOneRow(row: seq<P.Entry>, after: seq<Byte>, count: nat, before: P.Params, fid: nat)
    requires FittingRow(row) && count > 0
    ensures TakeParams(count, LittleEndian(|row|, 8) + (RowBytes(row) + after), before, fid)
         == TakeParams(count - 1, after, before + [RenumberedRow(row, fid)], fid + |row|)
  {
    hide TakeWord, LittleEndian, RowBytes, TakeRow, RenumberedRow;
    TakeWordBytes(|row|, RowBytes(row) + after);
    TakeRowBytes(row, after, [], fid);
    assert [] + RenumberedRow(row, fid) == RenumberedRow(row, fid);
  }

  lemma {:induction false} TakeParamsBytes(params: P.Params, rest: seq<Byte>, before: P.Params, fid: nat)
    requires FittingParams(params)
    ensures TakeParams(|params|, ParamsBytes(params) + rest, before, fid)
         == Got(before + Renumbered(params, fid), rest)
  {
    hide LittleEndian, RowBytes, TakeRow, RenumberedRow, TakeWord, FittingRow;
    if params == [] {
      assert ParamsBytes(params) + rest == rest && before + Renumbered(params, fid) == before;
    } else {
      var row, others := params[0], params[1..];
      ParamsBytesFirst(params, rest);
      TakeOneRow(row, ParamsBytes(others) + rest, |params|, before, fid);
      TakeParamsBytes(others, rest, before + [RenumberedRow(row, fid)], fid + |row|);
      RenumberedFirst(params, before, fid);
    }
  }

  lemma RenumberedFirst(params: P.Params, before: P.Params, fid: nat)
    requires params != []
    ensures before + Renumbered(params, fid)
         == (before + [RenumberedRow(params[0], fid)]) + Renumbered(params[1..], fid + |params[0]|)
  {
    hide RenumberedRow;
  }

  /** Feature ids count from `fid` over the rows in order. */
  ghost predicate NumberedFrom(params: P.Params, fid: nat) {
    forall p, j :: 0 <= p < |params| && 0 <= j < |params[p]| ==>
      params[p][j].fid == fid + P.Offset(params, p) + j
  }

  lemma {:induction false} OffsetShift(params: P.Params, p: nat)
    requires 0 < |params| && p < |params|
    ensures P.Offset(params, p + 1) == |params[0]| + P.Offset(params[1..], p)
  {
    if p > 0 {
      OffsetShift(params, p - 1);
    }
  }

  /** Renumbering changes feature ids only, and to the ones counted over the rows. */
  lemma {:induction false} RenumberedAt(params: P.Params, fid: nat, p: nat)
    requires p < |params|
    ensures Renumbered(params, fid)[p] == RenumberedRow(params[p], fid + P.Offset(params, p))
  {
    if p > 0 {
      RenumberedAt(params[1..], fid + |params[0]|, p - 1);
      OffsetShift(params, p - 1);
    }
  }

  lemma {:induction false} RenumberedOffset(params: P.Params, fid: nat, p: nat)
    requires p <= |params|
    ensures P.Offset(Renumbered(params, fid), p) == P.Offset(params, p)
  {
    if p > 0 {
      RenumberedOffset(params, fid, p - 1);
      RenumberedAt(params, fid, p - 1);
    }
  }

  lemma {:induction false} RenumberedIsNumbered(params: P.Params, fid: nat)
    ensures NumberedFrom(Renumbered(params, fid), fid)
  {
    var r: seq<seq<P.Entry>> := Renumbered(params, fid);
    forall p: nat, j: nat | p < |r| && j < |r[p]|
      ensures r[p][j].fid == fid + P.Offset(r, p) + j
    {
      RenumberedAt(params, fid, p);
      RenumberedOffset(params, fid, p);
    }
  }

  /** Exactly the numbered tables are not changed by being numbered anew. */
  lemma {:induction false} NumberedIsFixed(params: P.Params, fid: nat)
    ensures Renumbered(params, fid) == params <==> NumberedFrom(params, fid)
  {
    RenumberedIsNumbered(params, fid);
    if NumberedFrom(params, fid) {
      forall p | 0 <= p < |params|
        ensures Renumbered(params, fid)[p] == params[p]
      {
        RenumberedAt(params, fid, p);
      }
    }
  }

  lemma {:induction false} OffsetOfPrefix(params: P.Params, row: seq<P.Entry>, p: nat)
    requires p <= |params|
    ensures P.Offset(params + [row], p) == P.Offset(params, p)
  {
    if p > 0 {
      OffsetOfPrefix(params, row, p - 1);
    }
  }

  lemma {:induction false} TakenRow(len: nat, bytes: seq<Byte>, row: seq<P.Entry>, fid: nat, start: nat)
    requires fid == start + |row| && forall j :: 0 <= j < |row| ==> row[j].fid == start + j
    ensures var r := TakeRow(len, bytes, row, fid);
            r.Got? ==> |r.value| == |row| + len
                       && forall j :: 0 <= j < |r.value| ==> r.value[j].fid == start + j
  {
    if len > 0 {
      var r := TakeWord(bytes);
      if r.Got? {
        TakenRow(len - 1, r.rest, row + [P.Entry(r.value, fid)], fid + 1, start);
      }
    }
  }

  lemma {:induction false} TakenParams(count: nat, bytes: seq<Byte>, params: P.Params, fid: nat)
    requires NumberedFrom(params, 0) && fid == P.Offset(params, |params|)
    ensures var r := TakeParams(count, bytes, params, fid);
            r.Got? ==> |r.value| == |params| + count && NumberedFrom(r.value, 0)
  {
    if count > 0 {
      var len := TakeWord(bytes);
      if len.Got? {
        var row := TakeRow(len.value, len.rest, [], fid);
        if row.Got? {
          TakenRow(len.value, len.rest, [], fid, fid);
          var longer := params + [row.value];
          forall p: nat | p <= |params|
            ensures P.Offset(longer, p) == P.Offset(params, p)
          {
            OffsetOfPrefix(params, row.value, p);
          }
          assert NumberedFrom(longer, 0);
          TakenParams(count - 1, row.rest, longer, fid + |row.value|);
        }
      }
    }
  }

  // ---------- Weights ----------

  function ThetaBytes(theta: seq<Weight>): seq<Byte> {
    if theta == [] then [] else theta[0] + ThetaBytes(theta[1..])
  }

  function TakeTheta(count: nat, bytes: seq<Byte>, theta: seq<Weight>): Read<seq<Weight>> {
    if count == 0 then Got(theta, bytes)
    else if |bytes| < 8 then Failed
    else TakeTheta(count - 1, bytes[8..], theta + [bytes[..8]])
  }

  lemma {:induction false} TakeThetaBytes(theta: seq<Weight>, rest: seq<Byte>, before: seq<Weight>)
    ensures TakeTheta(|theta|, ThetaBytes(theta) + rest, before) == Got(before + theta, rest)
  {
    var bytes := ThetaBytes(theta) + rest;
    if theta == [] {
      assert bytes == rest && before + theta == before;
    } else {
      var after := ThetaBytes(theta[1..]) + rest;
      assert bytes == theta[0] + after;
      assert bytes[..8] == theta[0] && bytes[8..] == after;
      TakeThetaBytes(theta[1..], rest, before + [theta[0]]);
      assert (before + [theta[0]]) + theta[1..] == before + theta;
    }
  }

  lemma {:induction false} TakenTheta(count: nat, bytes: seq<Byte>, theta: seq<Weight>)
    ensures TakeTheta(count, bytes, theta).Got? ==> |TakeTheta(count, bytes, theta).value| == |theta| + count
  {
    if count > 0 && |bytes| >= 8 {
      TakenTheta(count - 1, bytes[8..], theta + [bytes[..8]]);
    }
  }

  // ---------- The whole file ----------

  function Saved(header: seq<Byte>, m: Model): seq<Byte> {
    header
    + (LittleEndian(|m.preds|, 8) + NamesBytes(m.preds))
    + (LittleEndian(|m.outcomes|, 8) + NamesBytes(m.outcomes))
    + ParamsBytes(m.params)
    + (LittleEndian(|m.theta|, 8) + ThetaBytes(m.theta))
  }

  function LoadNames(bytes: seq<Byte>): Read<seq<Text>> {
    match TakeWord(bytes)
    case Failed => Failed
    case Got(count, rest) => TakeNames(count, rest, [])
  }

  function LoadTheta(bytes: seq<Byte>, fid: nat): Read<seq<Weight>> {
    match TakeWord(bytes)
    case Failed => Failed
    case Got(count, rest) => if fid != count then Failed else TakeTheta(count, rest, [])
  }

  /** As many rows as there are distinct predicates, and one weight for each entry. */
  function Load(bytes: seq<Byte>): Read<Model> {
    if |bytes| < HEADER_LEN then Failed
    else match LoadNames(bytes[HEADER_LEN..])
      case Failed => Failed
      case Got(preds, rest0) =>
        match LoadNames(rest0)
        case Failed => Failed
        case Got(outcomes, rest1) =>
          if preds == [] then Failed
          else match TakeParams(|preds|, rest1, [], 0)
            case Failed => Failed
            case Got(params, rest2) =>
              match LoadTheta(rest2, P.Offset(params, |params|))
              case Failed => Failed
              case Got(theta, rest3) => Got(Model(preds, outcomes, params, theta), rest3)
  }

  /** Every size and id is a machine word. */
  ghost predicate Fitting(m: Model) {
    && |m.preds| < WORDS && |m.outcomes| < WORDS && |m.theta| < WORDS
    && FittingParams(m.params)
  }

  /** What the format asks of a model, apart from its feature ids. */
  ghost predicate Loadable(m: Model) {
    && m.preds != [] && Distinct(m.preds) && Short(m.preds)
    && Distinct(m.outcomes) && Short(m.outcomes)
    && |m.params| == |m.preds|
    && |m.theta| == P.Offset(m.params, |m.params|)
  }

  lemma LoadNamesBytes(names: seq<Text>, rest: seq<Byte>)
    requires |names| < WORDS && Distinct(names) && Short(names)
    ensures LoadNames(LittleEndian(|names|, 8) + NamesBytes(names) + rest) == Got(names, rest)
  {
    hide TakeWord, LittleEndian, NamesBytes, TakeNames, Distinct, Short;
    assert LittleEndian(|names|, 8) + NamesBytes(names) + rest == LittleEndian(|names|, 8) + (NamesBytes(names) + rest);
    TakeWordBytes(|names|, NamesBytes(names) + rest);
    assert [] + names == names;
    TakeNamesBytes(names, rest, []);
  }

  lemma LoadThetaBytes(theta: seq<Weight>, rest: seq<Byte>)
    requires |theta| < WORDS
    ensures LoadTheta(LittleEndian(|theta|, 8) + ThetaBytes(theta) + rest, |theta|) == Got(theta, rest)
  {
    assert LittleEndian(|theta|, 8) + ThetaBytes(theta) + rest == LittleEndian(|theta|, 8) + (ThetaBytes(theta) + rest);
    TakeWordBytes(|theta|, ThetaBytes(theta) + rest);
    assert [] + theta == theta;
    TakeThetaBytes(theta, rest, []);
  }

  /** Loading gives the model back, with its features counted from 0 in the order of the rows. */
  lemma {:induction false} LoadSaved(header: seq<Byte>, m: Model, rest: seq<Byte>)
    requires |header| == HEADER_LEN && Fitting(m) && Loadable(m)
    ensures Load(Saved(header, m) + rest) == Got(m.(params := Renumbered(m.params, 0)), rest)
  {
    hide TakeWord, LittleEndian, NamesBytes, ParamsBytes, ThetaBytes, LoadNames, LoadTheta, TakeParams, Renumbered,
         FittingParams, Distinct, Short, P.Offset;
    var p := LittleEndian(|m.preds|, 8) + NamesBytes(m.preds);
    var o := LittleEndian(|m.outcomes|, 8) + NamesBytes(m.outcomes);
    var t := LittleEndian(|m.theta|, 8) + ThetaBytes(m.theta);
    var rest2 := t + rest;
    var rest1 := ParamsBytes(m.params) + rest2;
    var rest0 := o + rest1;
    assert Saved(header, m) + rest == header + (p + rest0);
    assert (Saved(header, m) + rest)[HEADER_LEN..] == p + rest0;
    LoadNamesBytes(m.preds, rest0);
    LoadNamesBytes(m.outcomes, rest1);
    TakeParamsBytes(m.params, rest2, [], 0);
    assert [] + Renumbered(m.params, 0) == Renumbered(m.params, 0);
    RenumberedOffset(m.params, 0, |m.params|);
    LoadThetaBytes(m.theta, rest);
  }

  /** Whatever is loaded could have been saved, and is numbered. */
  lemma {:induction false} LoadedIsNumbered(bytes: seq<Byte>)
    requires Load(bytes).Got?
    ensures Loadable(Load(bytes).value) && NumberedFrom(Load(bytes).value.params, 0)
  {
    hide TakeWord, TakeNames, TakeParams, TakeTheta, Distinct, Short, NumberedFrom;
    var preds := LoadNames(bytes[HEADER_LEN..]);
    var outcomes := LoadNames(preds.rest);
    NoNames();
    TakenNames(TakeWord(bytes[HEADER_LEN..]).value, TakeWord(bytes[HEADER_LEN..]).rest, []);
    TakenNames(TakeWord(preds.rest).value, TakeWord(preds.rest).rest, []);
    var params := TakeParams(|preds.value|, outcomes.rest, [], 0);
    TakenParams(|preds.value|, outcomes.rest, [], 0);
    TakenTheta(TakeWord(params.rest).value, TakeWord(params.rest).rest, []);
  }

  lemma NoNames()
    ensures Distinct([]) && Short([]) && NumberedFrom([], 0)
  {
  }

  /** A saved model is loaded unchanged if and only if the format allows it and its features are numbered
      from 0 in the order of the rows, although no feature id is ever written. */
  lemma {:induction false} RoundTrip(header: seq<Byte>, m: Model)
    requires |header| == HEADER_LEN && Fitting(m)
    ensures Load(Saved(header, m)) == Got(m, []) <==> Loadable(m) && NumberedFrom(m.params, 0)
  {
    hide Load, Saved, Fitting, Loadable, NumberedFrom;
    var file := Saved(header, m);
    assert file + [] == file;
    NumberedIsFixed(m.params, 0);
    if Loadable(m) {
      LoadSaved(header, m, []);
    }
    if Load(file) == Got(m, []) {
      LoadedIsNumbered(file);
    }
  }

  /** The tables that training builds are numbered that way. */
  lemma TrainedIsNumbered(events: seq<P.Event>, preds: nat, outcomes: nat, params: P.Params, nTheta: nat)
    requires P.NumberedTable(events, preds, outcomes, params, nTheta)
    ensures NumberedFrom(params, 0) && |params| == preds && nTheta == P.Offset(params, |params|)
  {
    hide P.Feature;
  }

  /** So a trained model survives saving and loading, whatever its weights are. */
  lemma {:induction false} TrainedRoundTrip(header: seq<Byte>, m: Model, events: seq<P.Event>)
    requires |header| == HEADER_LEN && Fitting(m)
    requires P.NumberedTable(events, |m.preds|, |m.outcomes|, m.params, |m.theta|)
    requires m.preds != [] && Distinct(m.preds) && Distinct(m.outcomes) && Short(m.preds) && Short(m.outcomes)
    ensures Load(Saved(header, m)) == Got(m, [])
  {
    hide Load, Saved, Fitting, Distinct, Short, NumberedFrom, P.NumberedTable;
    TrainedIsNumbered(events, |m.preds|, |m.outcomes|, m.params, |m.theta|);
    RoundTrip(header, m);
  }

  // ---------- Files ----------

  /** A file: writes append to it, reads take from its front. */
  class GzFile {
    var bytes: seq<Byte>

    constructor (content: seq<Byte>)
      ensures bytes == content
    {
      bytes := content;
    }

    method Write(data: seq<Byte>)
      modifies this
      ensures bytes == old(bytes) + data
    {
      bytes := bytes + data;
    }

    method WriteWord(w: nat)
      modifies this
      ensures bytes == old(bytes) + LittleEndian(w, 8)
    {
      Write(LittleEndian(w, 8));
    }

    method Take(n: nat) returns (data: seq<Byte>)
      requires n <= |bytes|
      modifies this
      ensures data == old(bytes)[..n] && bytes == old(bytes)[n..]
    {
      data := bytes[..n];
      bytes := bytes[n..];
    }

    method ReadWord() returns (w: nat)
      requires TakeWord(bytes).Got?
      modifies this
      ensures TakeWord(old(bytes)) == Got(w, bytes)
    {
      var data := Take(8);
      w := LittleEndianValue(data);
    }
  }

  class MaxentModelFile {
    var predMap: seq<Text>
    var outcomeMap: seq<Text>
    var params: P.Params
    var theta: array<Weight>

    constructor ()
      ensures Contents() == Model([], [], [], [])
      ensures fresh(theta)
    {
      predMap, outcomeMap, params := [], [], [];
      theta := new Weight[0];
    }

    ghost function Contents(): Model
      reads this, theta
    {
      Model(predMap, outcomeMap, params, theta[..])
    }

    method SaveNames(f: GzFile, names: seq<Text>)
      modifies f
      ensures f.bytes == old(f.bytes) + (LittleEndian(|names|, 8) + NamesBytes(names))
    {
      hide LittleEndian;
      f.WriteWord(|names|);
      ghost var head := f.bytes;
      assert names[0..] == names;
      for i := 0 to |names|
        invariant f.bytes + NamesBytes(names[i..]) == head + NamesBytes(names)
      {
        assert names[i..][1..] == names[i + 1..];
        f.WriteWord(|names[i]|);
        f.Write(names[i]);
      }
      assert names[|names|..] == [];
      assert f.bytes == head + NamesBytes(names);
    }

    method SaveRow(f: GzFile, row: seq<P.Entry>)
      modifies f
      ensures f.bytes == old(f.bytes) + (LittleEndian(|row|, 8) + RowBytes(row))
    {
      hide LittleEndian;
      f.WriteWord(|row|);
      ghost var head := f.bytes;
      assert row[0..] == row;
      for j := 0 to |row|
        invariant f.bytes + RowBytes(row[j..]) == head + RowBytes(row)
      {
        assert row[j..][1..] == row[j + 1..];
        f.WriteWord(row[j].oid);
      }
      assert row[|row|..] == [];
      assert f.bytes == head + RowBytes(row);
    }

    method SaveParams(f: GzFile)
      modifies f
      ensures f.bytes == old(f.bytes) + ParamsBytes(params)
    {
      hide LittleEndian, RowBytes;
      assert params[0..] == params;
      for i := 0 to |params|
        invariant f.bytes + ParamsBytes(params[i..]) == old(f.bytes) + ParamsBytes(params)
      {
        assert params[i..][1..] == params[i + 1..];
        SaveRow(f, params[i]);
      }
      assert params[|params|..] == [];
    }

    method SaveTheta(f: GzFile)
      modifies f
      ensures f.bytes == old(f.bytes) + (LittleEndian(theta.Length, 8) + ThetaBytes(theta[..]))
    {
      hide LittleEndian;
      f.WriteWord(theta.Length);
      ghost var head := f.bytes;
      assert theta[0..] == theta[..];
      for i := 0 to theta.Length
        invariant f.bytes + ThetaBytes(theta[i..]) == head + ThetaBytes(theta[..])
      {
        assert theta[i..][1..] == theta[i + 1..];
        f.Write(theta[i]);
      }
      assert theta[theta.Length..] == [];
      assert f.bytes == head + ThetaBytes(theta[..]);
    }

    method SaveModelBin(f: GzFile, header: seq<Byte>)
      requires |header| == HEADER_LEN
      modifies f
      ensures f.bytes == old(f.bytes) + Saved(header, Contents())
    {
      hide LittleEndian, NamesBytes, ParamsBytes, ThetaBytes;
      f.Write(header);
      SaveNames(f, predMap);
      SaveNames(f, outcomeMap);
      SaveParams(f);
      SaveTheta(f);
    }

    method ReadNames(f: GzFile) returns (items: seq<Text>)
      requires LoadNames(f.bytes).Got?
      modifies f
      ensures LoadNames(old(f.bytes)) == Got(items, f.bytes)
    {
      hide TakeWord, TakeName, Add;
      var count := f.ReadWord();
      items := [];
      for i := 0 to count
        invariant TakeNames(count - i, f.bytes, items) == LoadNames(old(f.bytes))
      {
        var name := ReadName(f);
        items := Add(items, name);
      }
    }

    method ReadName(f: GzFile) returns (name: Text)
      requires TakeName(f.bytes).Got?
      modifies f
      ensures TakeName(old(f.bytes)) == Got(name, f.bytes)
    {
      hide TakeWord;
      var len := f.ReadWord();
      name := f.Take(len);
    }

    method ReadRow(f: GzFile, len: nat, start: nat) returns (row: seq<P.Entry>, fid: nat)
      requires TakeRow(len, f.bytes, [], start).Got?
      modifies f
      ensures TakeRow(len, old(f.bytes), [], start) == Got(row, f.bytes) && fid == start + |row|
    {
      hide TakeWord;
      row, fid := [], start;
      for j := 0 to len
        invariant TakeRow(len - j, f.bytes, row, fid) == TakeRow(len, old(f.bytes), [], start)
        invariant fid == start + |row|
      {
        var oid := f.ReadWord();
        row := row + [P.Entry(oid, fid)];
        fid := fid + 1;
      }
    }

    method ReadParams(f: GzFile, count: nat) returns (rows: P.Params, fid: nat)
      requires TakeParams(count, f.bytes, [], 0).Got?
      modifies f
      ensures TakeParams(count, old(f.bytes), [], 0) == Got(rows, f.bytes) && fid == P.Offset(rows, |rows|)
    {
      hide TakeWord, TakeRow;
      rows, fid := [], 0;
      for i := 0 to count
        invariant TakeParams(count - i, f.bytes, rows, fid) == TakeParams(count, old(f.bytes), [], 0)
        invariant fid == P.Offset(rows, |rows|)
      {
        var len := f.ReadWord();
        var row;
        row, fid := ReadRow(f, len, fid);
        OffsetOfPrefix(rows, row, |rows|);
        rows := rows + [row];
      }
    }

    method ReadTheta(f: GzFile, ghost fid: nat)
      requires LoadTheta(f.bytes, fid).Got?
      modifies f, this`theta
      ensures fresh(theta)
      ensures LoadTheta(old(f.bytes), fid) == Got(theta[..], f.bytes)
    {
      hide TakeWord;
      var n := f.ReadWord();
      assert fid == n;
      var weights := new Weight[n];
      for i := 0 to n
        invariant TakeTheta(n - i, f.bytes, weights[..i]) == LoadTheta(old(f.bytes), fid)
      {
        var weight := f.Take(8);
        weights[i] := weight;
        assert weights[..i + 1] == weights[..i] + [weight];
      }
      assert weights[..n] == weights[..];
      theta := weights;
    }

    method LoadModelBin(f: GzFile)
      requires Load(f.bytes).Got?
      modifies f, this
      ensures fresh(theta)
      ensures Load(old(f.bytes)) == Got(Contents(), f.bytes)
    {
      hide LoadNames, TakeParams, LoadTheta, P.Offset;
      var header := f.Take(HEADER_LEN);
      predMap := ReadNames(f);
      outcomeMap := ReadNames(f);
      assert |predMap| > 0;
      var fid;
      params, fid := ReadParams(f, |predMap|);
      ReadTheta(f, fid);
    }
  }
}
