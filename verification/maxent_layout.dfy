/** Binary model files, byte by byte: what stands where, whichever code writes or reads it. */
module MaxentLayout {
  import opened Common
  import opened Utf8
  import opened MaxentModelFile
  import P = MaxentParams

  /** Eight bytes from `at` on, low-order byte first. */
  predicate WordAt(file: seq<Byte>, at: nat, w: nat) {
    at + 8 <= |file| && file[at..at + 8] == LittleEndian(w, 8)
  }

  /** Each name behind its length, one behind the other, from `at` up to `end`. */
  predicate NamesAt(file: seq<Byte>, at: nat, names: seq<Text>, end: nat)
    decreases |names|
  {
    if names == [] then at == end <= |file|
    else
      var next := at + 8 + |names[0]|;
      WordAt(file, at, |names[0]|) && next <= |file| && file[at + 8..next] == names[0]
      && NamesAt(file, next, names[1..], end)
  }

  /** The outcomes of a row, one behind the other. */
  predicate RowAt(file: seq<Byte>, at: nat, row: seq<P.Entry>, end: nat)
    decreases |row|
  {
    if row == [] then at == end <= |file|
    else WordAt(file, at, row[0].oid) && RowAt(file, at + 8, row[1..], end)
  }

  /** Each row behind its length. */
  ghost predicate RowsAt(file: seq<Byte>, at: nat, params: P.Params, end: nat)
    decreases |params|
  {
    if params == [] then at == end <= |file|
    else exists next: nat :: RowsSplit(file, at, params, next, end)
  }

  ghost predicate RowsSplit(file: seq<Byte>, at: nat, params: P.Params, next: nat, end: nat)
    requires params != []
    decreases |params|, 0
  {
    WordAt(file, at, |params[0]|) && RowAt(file, at + 8, params[0], next) && RowsAt(file, next, params[1..], end)
  }

  predicate WeightsAt(file: seq<Byte>, at: nat, theta: seq<Weight>, end: nat)
    decreases |theta|
  {
    if theta == [] then at == end <= |file|
    else at + 8 <= |file| && file[at..at + 8] == theta[0] && WeightsAt(file, at + 8, theta[1..], end)
  }

  /** Behind the header of 16 bytes the number of predicates and the predicates, the number of outcomes and the
      outcomes, a row for each predicate, the number of weights and the weights; then the file ends. */
  ghost predicate Layout(file: seq<Byte>, m: Model) {
    exists a: nat, b: nat, c: nat :: Sections(file, m, a, b, c)
  }

  ghost predicate Sections(file: seq<Byte>, m: Model, a: nat, b: nat, c: nat) {
    && WordAt(file, 16, |m.preds|) && NamesAt(file, 24, m.preds, a)
    && WordAt(file, a, |m.outcomes|) && NamesAt(file, a + 8, m.outcomes, b)
    && RowsAt(file, b, m.params, c)
    && WordAt(file, c, |m.theta|) && WeightsAt(file, c + 8, m.theta, |file|)
  }

  lemma Slices(file: seq<Byte>, at: nat, next: nat, end: nat)
    requires at <= next <= end <= |file|
    ensures file[at..end] == file[at..next] + file[next..end]
  {
  }

  lemma SplitSlice(file: seq<Byte>, at: nat, end: nat, a: seq<Byte>, b: seq<Byte>)
    requires at <= end <= |file| && file[at..end] == a + b
    ensures at + |a| <= end && file[at..at + |a|] == a && file[at + |a|..end] == b
  {
    assert file[at..at + |a|] == file[at..end][..|a|];
    assert file[at + |a|..end] == file[at..end][|a|..];
  }

  /** Three parts that follow one another. */
  lemma ThreeParts(file: seq<Byte>, at: nat, a: seq<Byte>, b: seq<Byte>, c: seq<Byte>, end: nat)
    ensures var i, j := at + |a|, at + |a| + |b|;
            (at <= end <= |file| && file[at..end] == a + (b + c)) <==>
            (j <= end <= |file| && file[at..i] == a && file[i..j] == b && file[j..end] == c)
  {
    var i, j := at + |a|, at + |a| + |b|;
    if at <= end <= |file| && file[at..end] == a + (b + c) {
      SplitSlice(file, at, end, a, b + c);
      SplitSlice(file, i, end, b, c);
    } else if j <= end <= |file| && file[at..i] == a && file[i..j] == b && file[j..end] == c {
      Slices(file, at, i, end);
      Slices(file, i, j, end);
    }
  }

  lemma {:induction false} NamesIff(file: seq<Byte>, at: nat, names: seq<Text>, end: nat)
    ensures NamesAt(file, at, names, end) <==> at <= end <= |file| && file[at..end] == NamesBytes(names)
    decreases |names|
  {
    if names != [] {
      var head, name, rest := LittleEndian(|names[0]|, 8), names[0], NamesBytes(names[1..]);
      assert NamesBytes(names) == head + (name + rest);
      hide LittleEndian, NamesBytes;
      NamesIff(file, at + 8 + |name|, names[1..], end);
      ThreeParts(file, at, head, name, rest, end);
    }
  }

  lemma {:induction false} RowIff(file: seq<Byte>, at: nat, row: seq<P.Entry>, end: nat)
    ensures RowAt(file, at, row, end) <==> at <= end <= |file| && file[at..end] == RowBytes(row)
    decreases |row|
  {
    hide LittleEndian;
    if row != [] {
      var head, rest := LittleEndian(row[0].oid, 8), RowBytes(row[1..]);
      RowIff(file, at + 8, row[1..], end);
      if RowAt(file, at, row, end) {
        Slices(file, at, at + 8, end);
      } else if at <= end <= |file| && file[at..end] == RowBytes(row) {
        SplitSlice(file, at, end, head, rest);
      }
    }
  }

  lemma {:induction false} RowsIff(file: seq<Byte>, at: nat, params: P.Params, end: nat)
    ensures RowsAt(file, at, params, end) <==> at <= end <= |file| && file[at..end] == ParamsBytes(params)
    decreases |params|
  {
    hide LittleEndian, RowBytes;
    if params != [] {
      var head, row, rest := LittleEndian(|params[0]|, 8), RowBytes(params[0]), ParamsBytes(params[1..]);
      assert ParamsBytes(params) == head + (row + rest);
      hide ParamsBytes;
      ThreeParts(file, at, head, row, rest, end);
      if next: nat :| RowsSplit(file, at, params, next, end) {
        RowIff(file, at + 8, params[0], next);
        RowsIff(file, next, params[1..], end);
        assert next == at + 8 + |row|;
      }
      if at <= end <= |file| && file[at..end] == head + (row + rest) {
        var next := at + 8 + |row|;
        RowIff(file, at + 8, params[0], next);
        RowsIff(file, next, params[1..], end);
        assert RowsSplit(file, at, params, next, end);
      }
    }
  }

  lemma {:induction false} WeightsIff(file: seq<Byte>, at: nat, theta: seq<Weight>, end: nat)
    ensures WeightsAt(file, at, theta, end) <==> at <= end <= |file| && file[at..end] == ThetaBytes(theta)
    decreases |theta|
  {
    if theta != [] {
      WeightsIff(file, at + 8, theta[1..], end);
      if WeightsAt(file, at, theta, end) {
        Slices(file, at, at + 8, end);
      } else if at <= end <= |file| && file[at..end] == ThetaBytes(theta) {
        SplitSlice(file, at, end, theta[0], ThetaBytes(theta[1..]));
      }
    }
  }

  /** Exactly the files with this layout are those that saving gives. */
  lemma {:induction false} LayoutIff(file: seq<Byte>, m: Model)
    ensures Layout(file, m) <==> HEADER_LEN <= |file| && file == Saved(file[..HEADER_LEN], m)
  {
    hide LittleEndian, NamesBytes, ParamsBytes, ThetaBytes, NamesAt, RowsAt, WeightsAt;
    if a: nat, b: nat, c: nat :| Sections(file, m, a, b, c) {
      LaidOut(file, m, a, b, c);
    }
    if HEADER_LEN <= |file| && file == Saved(file[..HEADER_LEN], m) {
      SavedIsLaidOut(file, m);
    }
  }

  lemma LaidOut(file: seq<Byte>, m: Model, a: nat, b: nat, c: nat)
    requires Sections(file, m, a, b, c)
    ensures HEADER_LEN <= |file| && file == Saved(file[..HEADER_LEN], m)
  {
    hide LittleEndian, NamesBytes, ParamsBytes, ThetaBytes, NamesAt, RowsAt, WeightsAt;
    NamesIff(file, HEADER_LEN + 8, m.preds, a);
    NamesIff(file, a + 8, m.outcomes, b);
    RowsIff(file, b, m.params, c);
    WeightsIff(file, c + 8, m.theta, |file|);
    assert file == file[..HEADER_LEN] + file[HEADER_LEN..a] + file[a..b] + file[b..c] + file[c..];
    Slices(file, HEADER_LEN, HEADER_LEN + 8, a);
    Slices(file, a, a + 8, b);
    Slices(file, c, c + 8, |file|);
    assert file[c..] == file[c..|file|];
  }

  lemma SavedIsLaidOut(file: seq<Byte>, m: Model)
    requires HEADER_LEN <= |file| && file == Saved(file[..HEADER_LEN], m)
    ensures Layout(file, m)
  {
    hide LittleEndian, NamesBytes, ParamsBytes, ThetaBytes, NamesAt, RowsAt, WeightsAt;
    var header := file[..HEADER_LEN];
    var p, o, t := NamesBytes(m.preds), NamesBytes(m.outcomes), ThetaBytes(m.theta);
    var np, no, nt := LittleEndian(|m.preds|, 8), LittleEndian(|m.outcomes|, 8), LittleEndian(|m.theta|, 8);
    var rows := ParamsBytes(m.params);
    var a: nat := HEADER_LEN + 8 + |p|;
    var b: nat := a + 8 + |o|;
    var c: nat := b + |rows|;
    assert file[0..|file|] == file;
    assert file == header + (np + (p + (no + (o + (rows + (nt + t))))));
    SplitSlice(file, 0, |file|, header, np + (p + (no + (o + (rows + (nt + t))))));
    SplitSlice(file, HEADER_LEN, |file|, np, p + (no + (o + (rows + (nt + t)))));
    SplitSlice(file, HEADER_LEN + 8, |file|, p, no + (o + (rows + (nt + t))));
    SplitSlice(file, a, |file|, no, o + (rows + (nt + t)));
    SplitSlice(file, a + 8, |file|, o, rows + (nt + t));
    SplitSlice(file, b, |file|, rows, nt + t);
    SplitSlice(file, c, |file|, nt, t);
    NamesIff(file, HEADER_LEN + 8, m.preds, a);
    NamesIff(file, a + 8, m.outcomes, b);
    RowsIff(file, b, m.params, c);
    WeightsIff(file, c + 8, m.theta, |file|);
    assert Sections(file, m, a, b, c);
  }

  /** Names are not repeated and have at most 4096 bytes; there is a row for each predicate and a weight for each
      entry. */
  lemma LoadableIff(m: Model)
    ensures Loadable(m) <==>
            && m.preds != [] && |m.params| == |m.preds| && |m.theta| == P.Offset(m.params, |m.params|)
            && (forall i, j :: 0 <= i < j < |m.preds| ==> m.preds[i] != m.preds[j])
            && (forall i, j :: 0 <= i < j < |m.outcomes| ==> m.outcomes[i] != m.outcomes[j])
            && (forall name :: name in m.preds || name in m.outcomes ==> |name| <= 4096)
  {
    hide P.Offset;
    if Loadable(m) {
      forall name | name in m.preds || name in m.outcomes
        ensures |name| <= 4096
      {
      }
    }
  }

  /** So a model that the format allows is loaded from every file with its layout, numbered anew. */
  lemma LoadLayout(file: seq<Byte>, m: Model)
    requires Fitting(m) && Loadable(m) && Layout(file, m)
    ensures Load(file) == Got(m.(params := Renumbered(m.params, 0)), [])
  {
    hide Load, Saved, Fitting, Loadable;
    LayoutIff(file, m);
    LoadSaved(file[..HEADER_LEN], m, []);
    assert Saved(file[..HEADER_LEN], m) + [] == file;
  }

  // ---------- Repeated names ----------

  /** Each name where it occurs first. */
  function Firsts(names: seq<Text>): (r: seq<Text>)
    ensures forall name :: name in r <==> name in names
  {
    if names == [] then []
    else
      var before, last := names[..|names| - 1], names[|names| - 1];
      assert names == before + [last];
      Firsts(before) + if last in before then [] else [last]
  }

  /** Of names that are repeated the first is read, whatever stands between. */
  lemma {:induction false} RepeatedNames(before: seq<Text>, names: seq<Text>, rest: seq<Byte>)
    requires Short(names)
    ensures TakeNames(|names|, NamesBytes(names) + rest, Firsts(before)) == Got(Firsts(before + names), rest)
    decreases |names|
  {
    hide TakeName, NameBytes, Firsts;
    if names == [] {
      assert NamesBytes(names) + rest == rest && before + names == before;
    } else {
      var name, others := names[0], names[1..];
      assert NamesBytes(names) + rest == NameBytes(name) + (NamesBytes(others) + rest);
      TakeNameBytes(name, NamesBytes(others) + rest);
      OneMoreName(before, name);
      assert before + [name] + others == before + names;
      RepeatedNames(before + [name], others, rest);
    }
  }

  lemma OneMoreName(before: seq<Text>, name: Text)
    ensures Firsts(before + [name]) == Add(Firsts(before), name)
  {
    assert (before + [name])[..|before|] == before;
    assert Firsts(before) + [] == Firsts(before);
  }
}
