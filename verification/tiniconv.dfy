/** `tiniconv_convert`: the resumable conversion loop between two character set codecs. */
module Tiniconv {
  import opened Common

  /** What reading one character from a non-empty input does. It is assumed that the codecs leave their
      state alone when they report a failure. */
  datatype Reading =
    | Read(wc: nat, consumed: nat, istate: nat)
    | Shift(consumed: nat, istate: nat)
    | IllegalInput
    | Incomplete

  /** What writing one character into `n` free bytes does. */
  datatype Writing =
    | Wrote(bytes: seq<Byte>, ostate: nat)
    | Unrepresentable
    | NoRoom

  datatype Codec = Codec(read: (nat, seq<Byte>) -> Reading, write: (nat, nat, nat) -> Writing)

  /** What is assumed of the codecs: a reader stays inside its input and a shift sequence is not empty;
      a writer writes something, stays inside its room, and does not change its verdict when it is
      given more room than it needed. */
  ghost predicate ObeysLaws(c: Codec) {
    && (forall st: nat, s: seq<Byte> :: s != [] ==>
          match c.read(st, s)
          case Read(_, k, _) => k <= |s|
          case Shift(k, _) => 1 <= k <= |s|
          case _ => true)
    && (forall st: nat, wc: nat, n: nat :: c.write(st, wc, n).Wrote? && n > 0 ==>
          1 <= |c.write(st, wc, n).bytes| <= n)
    && (forall st: nat, wc: nat, n: nat, m: nat :: 0 < n <= m && !c.write(st, wc, n).NoRoom? ==>
          c.write(st, wc, m) == c.write(st, wc, n))
  }

  /** `TINICONV_OPTION_IGNORE_IN_ILSEQ`, `TINICONV_OPTION_IGNORE_OUT_ILSEQ` and the replacement. */
  datatype Options = Options(ignoreIn: bool, ignoreOut: bool, replacement: Byte)

  datatype Status = Ok | InTooSmall | OutTooSmall | InIllegal | OutIllegal

  datatype State = State(istate: nat, ostate: nat)

  datatype Outcome = Outcome(status: Status, consumed: nat, output: seq<Byte>, state: State) {
    /** This outcome after `k` bytes consumed and `bytes` written before it. */
    function After(k: nat, bytes: seq<Byte>): Outcome {
      this.(consumed := k + consumed, output := bytes + output)
    }
  }

  /** One turn of the loop: either the call ends, or `k` bytes are consumed and `bytes` written. */
  datatype Move = Stop(status: Status) | Go(state: State, k: nat, bytes: seq<Byte>)

  ghost function Step(c: Codec, o: Options, st: State, input: seq<Byte>, room: nat): (m: Move)
    requires ObeysLaws(c) && input != [] && room > 0
    ensures m.Go? ==> m.k <= |input| && |m.bytes| <= room && m.k + |m.bytes| > 0
  {
    match c.read(st.istate, input)
    case IllegalInput => if o.ignoreIn then Go(st.(istate := 0), 1, []) else Stop(InIllegal)
    case Incomplete => Stop(InTooSmall)
    case Shift(k, istate) => Go(st.(istate := istate), k, [])
    case Read(wc, k, istate) =>
      match c.write(st.ostate, wc, room)
      case Wrote(bytes, ostate) => Go(State(istate, ostate), k, bytes)
      case Unrepresentable => if o.ignoreOut then Go(State(istate, 0), k, [o.replacement]) else Stop(OutIllegal)
      case NoRoom => Stop(OutTooSmall)
  }

  /** More room changes a turn only when there was too little. */
  lemma StepWithMoreRoom(c: Codec, o: Options, st: State, input: seq<Byte>, room: nat, more: nat)
    requires ObeysLaws(c) && input != [] && 0 < room <= more
    ensures Step(c, o, st, input, room) == Stop(OutTooSmall) ||
            Step(c, o, st, input, more) == Step(c, o, st, input, room)
  {
  }

  /** The meaning of one call on the whole unread input, with `room` bytes of output. */
  ghost function Convert(c: Codec, o: Options, st: State, input: seq<Byte>, room: nat): (r: Outcome)
    requires ObeysLaws(c)
    ensures r.consumed <= |input| && |r.output| <= room
    decreases |input| + room
  {
    if input == [] || room == 0 then Outcome(Ok, 0, [], st)
    else match Step(c, o, st, input, room)
      case Stop(status) => Outcome(status, 0, [], st)
      case Go(st', k, bytes) => Convert(c, o, st', input[k..], room - |bytes|).After(k, bytes)
  }

  lemma FirstTurn(c: Codec, o: Options, st: State, input: seq<Byte>, room: nat)
    requires ObeysLaws(c) && input != [] && room > 0
    ensures var m := Step(c, o, st, input, room);
            Convert(c, o, st, input, room) ==
            if m.Stop? then Outcome(m.status, 0, [], st)
            else Convert(c, o, m.state, input[m.k..], room - |m.bytes|).After(m.k, m.bytes)
  {
    hide Step, ObeysLaws;
  }

  lemma NoTurn(c: Codec, o: Options, st: State, input: seq<Byte>, room: nat)
    requires ObeysLaws(c) && (input == [] || room == 0)
    ensures Convert(c, o, st, input, room) == Outcome(Ok, 0, [], st)
  {
  }

  // ---------- What a call does, in terms of the codecs alone ----------

  /** What happened to a stretch of the input: a character was encoded or replaced, a shift sequence was
      read, a byte was skipped. */
  datatype Fate = Encoded(wc: nat) | Replaced(wc: nat) | Shifted | Skipped

  datatype Stretch = Stretch(fate: Fate, length: nat, bytes: seq<Byte>, next: State)

  predicate Happens(c: Codec, o: Options, st: State, input: seq<Byte>, room: nat, s: Stretch) {
    match s.fate
    case Encoded(wc) =>
      && c.read(st.istate, input) == Read(wc, s.length, s.next.istate)
      && c.write(st.ostate, wc, room) == Wrote(s.bytes, s.next.ostate)
    case Replaced(wc) =>
      && o.ignoreOut && c.read(st.istate, input) == Read(wc, s.length, s.next.istate)
      && c.write(st.ostate, wc, room) == Unrepresentable && s.bytes == [o.replacement] && s.next.ostate == 0
    case Shifted =>
      c.read(st.istate, input) == Shift(s.length, s.next.istate) && s.bytes == [] && s.next.ostate == st.ostate
    case Skipped =>
      && o.ignoreIn && c.read(st.istate, input) == IllegalInput
      && s.length == 1 && s.bytes == [] && s.next == State(0, st.ostate)
  }

  /** Why a call ends with this status, given what is left of the input and of the room. */
  predicate Means(c: Codec, o: Options, st: State, input: seq<Byte>, room: nat, status: Status) {
    match status
    case Ok => input == [] || room == 0
    case InIllegal => input != [] && room > 0 && c.read(st.istate, input) == IllegalInput && !o.ignoreIn
    case InTooSmall => input != [] && room > 0 && c.read(st.istate, input) == Incomplete
    case OutIllegal =>
      && input != [] && room > 0 && c.read(st.istate, input).Read? && !o.ignoreOut
      && c.write(st.ostate, c.read(st.istate, input).wc, room) == Unrepresentable
    case OutTooSmall =>
      && input != [] && room > 0 && c.read(st.istate, input).Read?
      && c.write(st.ostate, c.read(st.istate, input).wc, room) == NoRoom
  }

  /** The stretches make up what was consumed and written, and the call ends behind them for its reason. */
  ghost predicate Explains(c: Codec, o: Options, st: State, input: seq<Byte>, room: nat, stretches: seq<Stretch>,
                           r: Outcome)
    decreases |stretches|
  {
    if stretches == [] then
      r.consumed == 0 && r.output == [] && r.state == st && Means(c, o, st, input, room, r.status)
    else
      var s := stretches[0];
      && input != [] && room > 0 && s.length <= |input| && |s.bytes| <= room && Happens(c, o, st, input, room, s)
      && s.length <= r.consumed && s.bytes <= r.output
      && Explains(c, o, s.next, input[s.length..], room - |s.bytes|, stretches[1..],
                  Outcome(r.status, r.consumed - s.length, r.output[|s.bytes|..], r.state))
  }

  /** Every call can be explained. */
  lemma {:induction false} CallIsExplained(c: Codec, o: Options, st: State, input: seq<Byte>, room: nat)
    returns (stretches: seq<Stretch>)
    requires ObeysLaws(c)
    ensures Explains(c, o, st, input, room, stretches, Convert(c, o, st, input, room))
    decreases |input| + room
  {
    hide ObeysLaws, Convert, Step, Happens, Means;
    stretches := [];
    if input == [] || room == 0 {
      NoTurn(c, o, st, input, room);
      NothingLeft(c, o, st, input, room);
      assert input[0..] == input;
    } else {
      FirstTurn(c, o, st, input, room);
      match Step(c, o, st, input, room) {
        case Stop(status) =>
          StopMeans(c, o, st, input, room);
        case Go(st', k, bytes) =>
          var s := GoHappens(c, o, st, input, room);
          var rest := CallIsExplained(c, o, st', input[k..], room - |bytes|);
          var r := Convert(c, o, st', input[k..], room - |bytes|);
          stretches := [s] + rest;
          assert stretches[1..] == rest && (bytes + r.output)[|bytes|..] == r.output;
      }
    }
  }

  lemma StopMeans(c: Codec, o: Options, st: State, input: seq<Byte>, room: nat)
    requires ObeysLaws(c) && input != [] && room > 0 && Step(c, o, st, input, room).Stop?
    ensures Means(c, o, st, input, room, Step(c, o, st, input, room).status)
  {
    hide ObeysLaws;
  }

  lemma GoHappens(c: Codec, o: Options, st: State, input: seq<Byte>, room: nat) returns (s: Stretch)
    requires ObeysLaws(c) && input != [] && room > 0 && Step(c, o, st, input, room).Go?
    ensures var m := Step(c, o, st, input, room);
            s.length == m.k && s.bytes == m.bytes && s.next == m.state && Happens(c, o, st, input, room, s)
  {
    hide ObeysLaws;
    var m := Step(c, o, st, input, room);
    var fate := match c.read(st.istate, input)
                case Read(wc, _, _) =>
                  if c.write(st.ostate, wc, room).Wrote? then Encoded(wc) else Replaced(wc)
                case Shift(_, _) => Shifted
                case _ => Skipped;
    s := Stretch(fate, m.k, m.bytes, m.state);
  }

  /** And no other outcome can. */
  lemma {:induction false} OneExplanation(c: Codec, o: Options, st: State, input: seq<Byte>, room: nat,
                                         stretches: seq<Stretch>, r: Outcome)
    requires ObeysLaws(c) && Explains(c, o, st, input, room, stretches, r)
    ensures r == Convert(c, o, st, input, room)
    decreases |stretches|
  {
    hide ObeysLaws, Convert, Step, Happens, Means;
    if stretches == [] {
      OneReason(c, o, st, input, room, r.status);
    } else {
      var s := stretches[0];
      OneStep(c, o, st, input, room, s);
      FirstTurn(c, o, st, input, room);
      var rest := Outcome(r.status, r.consumed - s.length, r.output[|s.bytes|..], r.state);
      OneExplanation(c, o, s.next, input[s.length..], room - |s.bytes|, stretches[1..], rest);
      assert r.output == s.bytes + rest.output;
    }
  }

  lemma OneReason(c: Codec, o: Options, st: State, input: seq<Byte>, room: nat, status: Status)
    requires ObeysLaws(c) && Means(c, o, st, input, room, status)
    ensures Convert(c, o, st, input, room) == Outcome(status, 0, [], st)
  {
    hide ObeysLaws;
  }

  lemma OneStep(c: Codec, o: Options, st: State, input: seq<Byte>, room: nat, s: Stretch)
    requires ObeysLaws(c) && input != [] && room > 0 && Happens(c, o, st, input, room, s)
    ensures Step(c, o, st, input, room) == Go(s.next, s.length, s.bytes)
  {
    hide ObeysLaws;
  }

  /** The status says why the call ended, at the input and in the state it left. */
  lemma {:induction false} StatusMeans(c: Codec, o: Options, st: State, input: seq<Byte>, room: nat)
    requires ObeysLaws(c)
    ensures var r := Convert(c, o, st, input, room);
            Means(c, o, r.state, input[r.consumed..], room - |r.output|, r.status)
    decreases |input| + room
  {
    hide ObeysLaws, Means, Convert, Step;
    if input == [] || room == 0 {
      NoTurn(c, o, st, input, room);
      NothingLeft(c, o, st, input, room);
    } else {
      FirstTurn(c, o, st, input, room);
      match Step(c, o, st, input, room) {
        case Stop(status) =>
          StopMeans(c, o, st, input, room);
          assert input[0..] == input;
        case Go(st', k, bytes) =>
          StatusMeans(c, o, st', input[k..], room - |bytes|);
          var r := Convert(c, o, st', input[k..], room - |bytes|);
          assert input[k..][r.consumed..] == input[k + r.consumed..];
      }
    }
  }

  lemma NothingLeft(c: Codec, o: Options, st: State, input: seq<Byte>, room: nat)
    requires input == [] || room == 0
    ensures Means(c, o, st, input[0..], room, Ok)
  {
  }

  /** The call with room `small`, continued with what is left of `room`, is the call with `room`. */
  ghost predicate Resumes(c: Codec, o: Options, st: State, input: seq<Byte>, small: nat, room: nat)
    requires ObeysLaws(c) && small <= room
  {
    var first := Convert(c, o, st, input, small);
    var second := Convert(c, o, first.state, input[first.consumed..], room - |first.output|);
    Convert(c, o, st, input, room) == second.After(first.consumed, first.output)
  }

  /** A turn that both calls take in the same way keeps `Resumes`. */
  lemma TurnResumes(c: Codec, o: Options, st: State, input: seq<Byte>, small: nat, room: nat,
                    st': State, k: nat, bytes: seq<Byte>)
    requires ObeysLaws(c) && small <= room && k <= |input| && |bytes| <= small
    requires Convert(c, o, st, input, small) == Convert(c, o, st', input[k..], small - |bytes|).After(k, bytes)
    requires Convert(c, o, st, input, room) == Convert(c, o, st', input[k..], room - |bytes|).After(k, bytes)
    requires Resumes(c, o, st', input[k..], small - |bytes|, room - |bytes|)
    ensures Resumes(c, o, st, input, small, room)
  {
    hide Convert, ObeysLaws;
    var rest := Convert(c, o, st', input[k..], small - |bytes|);
    assert input[k..][rest.consumed..] == input[k + rest.consumed..];
    var second := Convert(c, o, rest.state, input[k + rest.consumed..], room - |bytes| - |rest.output|);
    assert bytes + (rest.output + second.output) == (bytes + rest.output) + second.output;
  }

  /** A call that does nothing leaves everything to the next one. */
  lemma NothingDone(c: Codec, o: Options, st: State, input: seq<Byte>, small: nat, room: nat)
    requires ObeysLaws(c) && small <= room
    requires var r := Convert(c, o, st, input, small); r.consumed == 0 && r.output == [] && r.state == st
    ensures Resumes(c, o, st, input, small, room)
  {
    hide Convert, ObeysLaws;
    assert input[0..] == input;
    var r := Convert(c, o, st, input, room);
    assert [] + r.output == r.output;
  }

  /** Stopping for lack of room and resuming on the unread input with the same context is one call
      with the room that both calls together could use. */
  lemma {:induction false} Resume(c: Codec, o: Options, st: State, input: seq<Byte>, small: nat, room: nat)
    requires ObeysLaws(c) && small <= room
    ensures Resumes(c, o, st, input, small, room)
    decreases |input| + small
  {
    hide Step, ObeysLaws, Resumes, Convert;
    if input == [] || small == 0 {
      NoTurn(c, o, st, input, small);
      NothingDone(c, o, st, input, small, room);
    } else if Step(c, o, st, input, small).Stop? {
      FirstTurn(c, o, st, input, small);
      NothingDone(c, o, st, input, small, room);
    } else {
      StepWithMoreRoom(c, o, st, input, small, room);
      FirstTurn(c, o, st, input, small);
      FirstTurn(c, o, st, input, room);
      var m := Step(c, o, st, input, small);
      Resume(c, o, m.state, input[m.k..], small - |m.bytes|, room - |m.bytes|);
      TurnResumes(c, o, st, input, small, room, m.state, m.k, m.bytes);
    }
  }

  /** The call used up its input, or it failed for another reason than room. */
  ghost predicate Finished(r: Outcome, input: seq<Byte>) {
    r.consumed == |input| || (r.status != Ok && r.status != OutTooSmall)
  }

  /** A finished call had enough room: any larger buffer gives the same outcome. */
  lemma {:induction false} EnoughRoom(c: Codec, o: Options, st: State, input: seq<Byte>, room: nat, more: nat)
    requires ObeysLaws(c) && room <= more && Finished(Convert(c, o, st, input, room), input)
    ensures Convert(c, o, st, input, more) == Convert(c, o, st, input, room)
    decreases |input| + room
  {
    hide Step, ObeysLaws, Convert;
    if input == [] || room == 0 {
      NoTurn(c, o, st, input, room);
      assert input == [];
      NoTurn(c, o, st, input, more);
    } else {
      StepWithMoreRoom(c, o, st, input, room, more);
      FirstTurn(c, o, st, input, room);
      FirstTurn(c, o, st, input, more);
      match Step(c, o, st, input, room)
      case Stop(status) =>
      case Go(st', k, bytes) => EnoughRoom(c, o, st', input[k..], room - |bytes|, more - |bytes|);
    }
  }

  /** A series of calls with output buffers of the given sizes, each on what the ones before left. */
  ghost function ConvertInPieces(c: Codec, o: Options, st: State, input: seq<Byte>, rooms: seq<nat>): (r: Outcome)
    requires ObeysLaws(c) && rooms != []
    ensures r.consumed <= |input|
    decreases |rooms|
  {
    var first := Convert(c, o, st, input, rooms[0]);
    if |rooms| == 1 then first
    else
      ConvertInPieces(c, o, first.state, input[first.consumed..], rooms[1..]).After(first.consumed, first.output)
  }

  /** However the output is cut into buffers, pieces that finish the conversion have the outcome of
      one call, for every buffer that is large enough. */
  lemma {:induction false} PiecesAreOneCall(c: Codec, o: Options, st: State, input: seq<Byte>, rooms: seq<nat>)
    returns (enough: nat)
    requires ObeysLaws(c) && rooms != []
    requires Finished(ConvertInPieces(c, o, st, input, rooms), input)
    ensures forall room: nat :: room >= enough ==>
              Convert(c, o, st, input, room) == ConvertInPieces(c, o, st, input, rooms)
    decreases |rooms|
  {
    var first := Convert(c, o, st, input, rooms[0]);
    if |rooms| == 1 {
      enough := rooms[0];
      forall room: nat | room >= enough {
        EnoughRoom(c, o, st, input, rooms[0], room);
      }
    } else {
      var rest := input[first.consumed..];
      var e := PiecesAreOneCall(c, o, first.state, rest, rooms[1..]);
      enough := rooms[0] + |first.output| + e;
      forall room: nat | room >= enough
        ensures Convert(c, o, st, input, room) == ConvertInPieces(c, o, st, input, rooms)
      {
        Resume(c, o, st, input, rooms[0], room);
      }
    }
  }

  /** The ASCII codec. */
  function AsciiRead(istate: nat, s: seq<Byte>): Reading {
    if s == [] then Incomplete
    else if s[0] < 0x80 then Read(s[0], 1, istate)
    else IllegalInput
  }

  function AsciiWrite(ostate: nat, wc: nat, n: nat): Writing {
    if wc < 0x80 then Wrote([wc], ostate) else Unrepresentable
  }

  lemma AsciiObeysLaws()
    ensures ObeysLaws(Codec(AsciiRead, AsciiWrite))
  {
  }

  class Context {
    const codec: Codec
    const options: Options
    var istate: nat
    var ostate: nat

    /** `tiniconv_init` leaves both codecs in their initial state. */
    constructor (codec: Codec, options: Options)
      ensures this.codec == codec && this.options == options && istate == ostate == 0
    {
      this.codec, this.options, istate, ostate := codec, options, 0, 0;
    }

    /** `tiniconv_convert` */
    method TiniconvConvert(input: seq<Byte>, output: array<Byte>)
      returns (status: Status, inIdx: nat, outIdx: nat)
      requires ObeysLaws(codec)
      modifies this, output
      ensures inIdx <= |input| && outIdx <= output.Length
      ensures Outcome(status, inIdx, output[..outIdx], State(istate, ostate)) ==
              Convert(codec, options, old(State(istate, ostate)), input, output.Length)
      ensures Means(codec, options, State(istate, ostate), input[inIdx..], output.Length - outIdx, status)
    {
      hide ObeysLaws, Convert, Means;
      StatusMeans(codec, options, State(istate, ostate), input, output.Length);
      ghost var start := Convert(codec, options, State(istate, ostate), input, output.Length);
      ghost var before := output[..0];
      inIdx, outIdx := 0, 0;
      assert input[0..] == input && before == [];
      while inIdx < |input| && outIdx < output.Length
        invariant inIdx <= |input| && outIdx <= output.Length && before == output[..outIdx]
        invariant start == Convert(codec, options, State(istate, ostate), input[inIdx..], output.Length - outIdx)
                             .After(inIdx, before)
        decreases |input| - inIdx + output.Length - outIdx
      {
        var lastIstate := istate;
        ghost var room := output.Length - outIdx;
        ghost var turn := Step(codec, options, State(istate, ostate), input[inIdx..], room);
        Unfold(codec, options, State(istate, ostate), input, inIdx, before, room);
        match codec.read(istate, input[inIdx..]) {
          case IllegalInput =>
            if options.ignoreIn {
              istate := 0;
              inIdx := inIdx + 1;
            } else {
              return InIllegal, inIdx, outIdx;
            }
          case Incomplete =>
            return InTooSmall, inIdx, outIdx;
          case Shift(k, next) =>
            istate := next;
            inIdx := inIdx + k;
          case Read(wc, k, next) =>
            istate := next;
            inIdx := inIdx + k;
            match codec.write(ostate, wc, output.Length - outIdx) {
              case Unrepresentable =>
                if options.ignoreOut {
                  output[outIdx] := options.replacement;
                  outIdx := outIdx + 1;
                  ostate := 0;
                } else {
                  inIdx := inIdx - k;
                  istate := lastIstate;
                  return OutIllegal, inIdx, outIdx;
                }
              case NoRoom =>
                inIdx := inIdx - k;
                istate := lastIstate;
                return OutTooSmall, inIdx, outIdx;
              case Wrote(bytes, ostate') =>
                Store(output, outIdx, bytes);
                ostate := ostate';
                outIdx := outIdx + |bytes|;
            }
        }
        assert output[..outIdx] == before + turn.bytes;
        before := before + turn.bytes;
      }
      NoTurn(codec, options, State(istate, ostate), input[inIdx..], output.Length - outIdx);
      return Ok, inIdx, outIdx;
    }
  }

  method Store(a: array<Byte>, at: nat, bytes: seq<Byte>)
    requires at + |bytes| <= a.Length
    modifies a
    ensures a[..at + |bytes|] == old(a[..at]) + bytes
  {
    forall j | 0 <= j < |bytes| {
      a[at + j] := bytes[j];
    }
  }

  /** The invariant of the loop across one turn. */
  lemma Unfold(c: Codec, o: Options, st: State, input: seq<Byte>, i: nat, written: seq<Byte>, room: nat)
    requires ObeysLaws(c) && i < |input| && room > 0
    ensures var r := Convert(c, o, st, input[i..], room);
            match Step(c, o, st, input[i..], room)
            case Stop(status) => r.After(i, written) == Outcome(status, i, written, st)
            case Go(st', k, bytes) =>
              r.After(i, written) ==
              Convert(c, o, st', input[i + k..], room - |bytes|).After(i + k, written + bytes)
  {
    hide Step, ObeysLaws;
    match Step(c, o, st, input[i..], room)
    case Stop(status) => assert written + [] == written;
    case Go(st', k, bytes) =>
      assert input[i..][k..] == input[i + k..];
      var rest := Convert(c, o, st', input[i + k..], room - |bytes|);
      assert written + (bytes + rest.output) == (written + bytes) + rest.output;
  }
}
