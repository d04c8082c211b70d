/**
 * The TLS session state machine. GnuTLS is an oracle: each call into the session is given a finite
 * script of what the library does, and once the script is used up the library reports that it has
 * nothing more to read. Listeners do not call back into the session.
 */
module CryptoSessions {
  import opened Bytes

  datatype State = Invalid | Opening | Open | Renegotiating | Closed | Aborted {
    predicate Active() { Opening? || Open? || Renegotiating? }
  }

  // Values of gnutls.h.
  const SUCCESS := 0
  const AGAIN := -28
  const REHANDSHAKE := -37
  const GOT_APPLICATION_DATA := -38

  /** One library call: how many bytes it pulls, each time it does; its result; the plaintext if any. */
  datatype LibraryReply = Reply(pulls: seq<nat>, code: int, plaintext: bytes)

  /** A positive result is the number of bytes received. */
  type Reply = r: LibraryReply | r.code > 0 ==> |r.plaintext| == r.code witness Reply([], AGAIN, [])

  const IDLE: Reply := Reply([], AGAIN, [])

  type Script = seq<Reply>

  function Head(script: Script): Reply { if script == [] then IDLE else script[0] }

  function Tail(script: Script): Script { if script == [] then [] else script[1..] }

  /** What `stateChanged` tells its listeners: the state before, and the one they can now observe. */
  datatype Notice = Notice(before: State, after: State)

  /** A datagram handed to the library: which arrival it came from, and the bytes that fitted. */
  datatype Pulled = Pulled(arrival: int, content: bytes)

  datatype Session = Session(
    state: State, current: Option<bytes>, notices: seq<Notice>, byes: nat,
    arrived: seq<bytes>, pulled: seq<Pulled>, propagated: seq<bytes>)

  const CREATED := Session(Invalid, None, [], 0, [], [], [])

  datatype Outcome = Done | Refused | NotReady | Failed(code: int)

  datatype Result = Result(session: Session, outcome: Outcome)

  function SetState(s: Session, state: State): Session {
    s.(state := state, notices := s.notices + [Notice(s.state, state)])
  }

  /** Aborts without telling anyone but the caller. */
  function Fail(s: Session, code: int): Result {
    Result(s.(state := Aborted), Failed(code))
  }

  /** `pull`: hands over the buffered datagram, cut to `size`, at most once. */
  function Pull(s: Session, size: nat): Session {
    if s.current.Some? then
      s.(current := None,
         pulled := s.pulled + [Pulled(|s.arrived| - 1, s.current.value[..Min(size, |s.current.value|)])])
    else s
  }

  function PullAll(s: Session, sizes: seq<nat>): Session
    decreases |sizes|
  {
    if sizes == [] then s else PullAll(Pull(s, sizes[0]), sizes[1..])
  }

  function HandleHandshake(s: Session, script: Script): Result
    decreases |script|
  {
    var reply, s1 := Head(script), PullAll(s, Head(script).pulls);
    if reply.code == GOT_APPLICATION_DATA then HandleData(s1, Tail(script))
    else if reply.code == AGAIN then Result(s1, Done)
    else if reply.code == SUCCESS then Result(SetState(s1, Open), Done)
    else Fail(s1, reply.code)
  }

  function HandleData(s: Session, script: Script): Result
    decreases |script|
  {
    var reply, s1 := Head(script), PullAll(s, Head(script).pulls);
    if reply.code < 0 then
      if reply.code == REHANDSHAKE then HandleHandshake(SetState(s1, Renegotiating), Tail(script))
      else Fail(s1, reply.code)
    else if reply.code == 0 then
      Result(SetState(if s1.state != Closed then s1.(byes := s1.byes + 1) else s1, Closed), Done)
    else Result(s1.(propagated := s1.propagated + [reply.plaintext]), Done)
  }

  function HandlePacket(s: Session, script: Script): Result {
    if s.state == Opening || s.state == Renegotiating then HandleHandshake(s, script)
    else if s.state == Open then HandleData(s, script)
    else Result(s, NotReady)
  }

  datatype Call =
    | OpenCall(script: Script)
    | RenegotiateCall
    | CloseCall
    | ReadCall(packet: bytes, script: Script)
    | WriteCall(sendResult: int)

  function Perform(s: Session, call: Call): Result {
    match call
    case OpenCall(script) =>
      if s.state != Invalid then Result(s, NotReady)
      else HandleHandshake(SetState(s, Opening), script)
    case RenegotiateCall =>
      if s.state != Open then Result(s, NotReady)
      else Result(SetState(s, Renegotiating), Done)
    case CloseCall =>
      if s.state == Invalid || s.state == Closed || s.state == Aborted then Result(s, NotReady)
      else Result(SetState(s.(byes := s.byes + 1), Closed), Done)
    case ReadCall(packet, script) =>
      HandlePacket(s.(arrived := s.arrived + [packet], current := Some(packet)), script)
    case WriteCall(sendResult) =>
      if s.state != Open then Result(s, NotReady)
      else if sendResult == AGAIN then Result(s, Refused)
      else if sendResult < 0 then Result(s, Failed(sendResult))
      else Result(s, Done)
  }

  function AfterCalls(calls: seq<Call>): Session {
    if calls == [] then CREATED
    else Perform(AfterCalls(calls[..|calls| - 1]), calls[|calls| - 1]).session
  }

  // ---- What holds in every run ----

  /** The changes of state a listener can be told about. */
  predicate Legal(n: Notice) {
    match n.before
    case Invalid => n.after == Opening
    case Opening => n.after == Open || n.after == Renegotiating || n.after == Closed
    case Open => n.after == Renegotiating || n.after == Closed
    case Renegotiating => n.after == Open || n.after == Renegotiating || n.after == Closed
    case Closed => false
    case Aborted => false
  }

  /** Where a listener that follows the notices believes the session to be. */
  function Believed(notices: seq<Notice>): State {
    if notices == [] then Invalid else notices[|notices| - 1].after
  }

  ghost predicate Path(notices: seq<Notice>) {
    && (notices != [] ==> notices[0].before == Invalid)
    && (forall i | 0 <= i < |notices| :: Legal(notices[i]))
    && (forall i | 0 < i < |notices| :: notices[i].before == notices[i - 1].after)
  }

  ghost predicate Told(s: Session) {
    && Path(s.notices)
    && (if s.state == Aborted then Believed(s.notices).Active() else Believed(s.notices) == s.state)
    && s.byes == if s.state == Closed then 1 else 0
  }

  /** Pulled datagrams are prefixes of distinct arrivals, in order of arrival; the buffered one is unpulled. */
  ghost predicate PulledInOrder(s: Session) {
    && (forall i | 0 <= i < |s.pulled| ::
          0 <= s.pulled[i].arrival < |s.arrived| && s.pulled[i].content <= s.arrived[s.pulled[i].arrival])
    && (forall i, j | 0 <= i < j < |s.pulled| :: s.pulled[i].arrival < s.pulled[j].arrival)
    && (s.current.Some? ==>
          && s.arrived != [] && s.current.value == s.arrived[|s.arrived| - 1]
          && forall i | 0 <= i < |s.pulled| :: s.pulled[i].arrival < |s.arrived| - 1)
  }

  ghost predicate Inv(s: Session) {
    Told(s) && PulledInOrder(s)
  }

  lemma SetStateKeeps(s: Session, state: State)
    requires Path(s.notices) && Believed(s.notices) == s.state && Legal(Notice(s.state, state))
    ensures Path(SetState(s, state).notices) && Believed(SetState(s, state).notices) == state
  {
  }

  /** What the library gets by pulling `sizes` in turn: the buffered datagram, once, cut to the first size. */
  function PulledBy(s: Session, sizes: seq<nat>): seq<Pulled> {
    if s.current.Some? && sizes != [] then
      [Pulled(|s.arrived| - 1, s.current.value[..Min(sizes[0], |s.current.value|)])]
    else []
  }

  function LeftBuffered(s: Session, sizes: seq<nat>): Option<bytes> {
    if sizes == [] then s.current else None
  }

  lemma {:induction false} PullAllOnce(s: Session, sizes: seq<nat>)
    ensures PullAll(s, sizes) == s.(current := LeftBuffered(s, sizes), pulled := s.pulled + PulledBy(s, sizes))
    decreases |sizes|
  {
    if sizes == [] {
      assert s.pulled + [] == s.pulled;
    } else {
      PullAllOnce(Pull(s, sizes[0]), sizes[1..]);
    }
  }

  lemma {:induction false} PullAllKeeps(s: Session, sizes: seq<nat>)
    requires PulledInOrder(s)
    ensures PulledInOrder(PullAll(s, sizes))
    decreases |sizes|
  {
    if sizes != [] {
      PullAllKeeps(Pull(s, sizes[0]), sizes[1..]);
    }
  }

  lemma LibraryKeeps(s: Session, sizes: seq<nat>)
    requires Inv(s)
    ensures Inv(PullAll(s, sizes)) && PullAll(s, sizes).state == s.state
  {
    PullAllKeeps(s, sizes);
    PullAllOnce(s, sizes);
  }

  lemma AnnounceKeeps(s: Session, state: State)
    requires Inv(s) && s.state != Aborted && Legal(Notice(s.state, state)) && state != Closed
    ensures Inv(SetState(s, state)) && SetState(s, state).state == state
  {
    SetStateKeeps(s, state);
  }

  lemma CloseKeeps(s: Session)
    requires Inv(s) && s.state.Active()
    ensures Inv(SetState(s.(byes := s.byes + 1), Closed))
  {
    SetStateKeeps(s.(byes := s.byes + 1), Closed);
  }

  lemma AbortKeeps(s: Session)
    requires Inv(s) && s.state.Active()
    ensures Inv(s.(state := Aborted))
  {
  }

  lemma PropagateKeeps(s: Session, plaintexts: seq<bytes>)
    requires Inv(s)
    ensures Inv(s.(propagated := plaintexts))
  {
  }

  lemma {:induction false} HandshakeKeeps(s: Session, script: Script)
    requires Inv(s) && (s.state == Opening || s.state == Renegotiating)
    ensures Inv(HandleHandshake(s, script).session)
    decreases |script|
  {
    hide Inv, PullAll, SetState, HandleData;
    var reply := Head(script);
    LibraryKeeps(s, reply.pulls);
    var s1 := PullAll(s, reply.pulls);
    if reply.code == GOT_APPLICATION_DATA {
      DataKeeps(s1, Tail(script));
    } else if reply.code == SUCCESS {
      AnnounceKeeps(s1, Open);
    } else {
      AbortKeeps(s1);
    }
  }

  lemma {:induction false} DataKeeps(s: Session, script: Script)
    requires Inv(s) && s.state.Active()
    ensures Inv(HandleData(s, script).session)
    decreases |script|
  {
    hide Inv, PullAll, SetState, HandleHandshake;
    var reply := Head(script);
    LibraryKeeps(s, reply.pulls);
    var s1 := PullAll(s, reply.pulls);
    if reply.code == REHANDSHAKE {
      AnnounceKeeps(s1, Renegotiating);
      HandshakeKeeps(SetState(s1, Renegotiating), Tail(script));
    } else if reply.code < 0 {
      AbortKeeps(s1);
    } else if reply.code == 0 {
      CloseKeeps(s1);
    } else {
      PropagateKeeps(s1, s1.propagated + [reply.plaintext]);
    }
  }

  lemma ArrivalKeeps(s: Session, packet: bytes)
    requires Inv(s)
    ensures Inv(s.(arrived := s.arrived + [packet], current := Some(packet)))
  {
  }

  lemma PerformKeeps(s: Session, call: Call)
    requires Inv(s)
    ensures Inv(Perform(s, call).session)
  {
    hide Inv, SetState, HandleHandshake, HandleData;
    match call
    case OpenCall(script) =>
      if s.state == Invalid {
        AnnounceKeeps(s, Opening);
        HandshakeKeeps(SetState(s, Opening), script);
      }
    case RenegotiateCall =>
      if s.state == Open {
        AnnounceKeeps(s, Renegotiating);
      }
    case CloseCall =>
      if s.state.Active() {
        CloseKeeps(s);
      }
    case ReadCall(packet, script) =>
      ArrivalKeeps(s, packet);
      var s1 := s.(arrived := s.arrived + [packet], current := Some(packet));
      if s.state == Opening || s.state == Renegotiating {
        HandshakeKeeps(s1, script);
      } else if s.state == Open {
        DataKeeps(s1, script);
      }
    case WriteCall(_) =>
  }

  /**
   * In every run: the notices form an unbroken path of legal changes from Invalid to the current
   * state, or to the active state from which the session was silently aborted; `gnutls_bye` has
   * been called exactly once if the session is Closed and never otherwise; and the datagrams the
   * library has pulled are prefixes of distinct arrived packets, in order of arrival.
   */
  lemma {:induction false} EveryRun(calls: seq<Call>)
    ensures Told(AfterCalls(calls)) && PulledInOrder(AfterCalls(calls))
  {
    if calls != [] {
      EveryRun(calls[..|calls| - 1]);
      PerformKeeps(AfterCalls(calls[..|calls| - 1]), calls[|calls| - 1]);
    }
  }

  /** A closed or aborted session refuses every call, and does nothing but remember arrivals. */
  lemma TerminalIsFinal(s: Session, call: Call)
    requires s.state == Closed || s.state == Aborted
    ensures Perform(s, call).outcome == NotReady
    ensures
      var t := Perform(s, call).session;
      t == s.(arrived := t.arrived, current := t.current)
  {
  }

  lemma {:induction false} TerminalForever(calls: seq<Call>, more: seq<Call>)
    requires AfterCalls(calls).state == Closed || AfterCalls(calls).state == Aborted
    ensures
      var s, t := AfterCalls(calls), AfterCalls(calls + more);
      t == s.(arrived := t.arrived, current := t.current)
  {
    if more == [] {
      assert calls + more == calls;
    } else {
      var n := |more| - 1;
      TerminalForever(calls, more[..n]);
      assert (calls + more)[..|calls + more| - 1] == calls + more[..n];
      TerminalIsFinal(AfterCalls(calls + more[..n]), more[n]);
    }
  }

  // ---- What one handler does with a script, without recursion ----

  function ReplyAt(script: Script, i: nat): Reply { if i < |script| then script[i] else IDLE }

  /** Whether the i-th library call receives data; the handlers take turns, starting with `inData`. */
  predicate ReceivesData(inData: bool, i: nat) { if i % 2 == 0 then inData else !inData }

  /** Replies on which one handler calls the other: GNUTLS_E_REHANDSHAKE, GNUTLS_E_GOT_APPLICATION_DATA. */
  predicate HandsOver(isData: bool, code: int) {
    code == if isData then -37 else -38
  }

  /** Reply `i` is the first on which the handler in charge does not call the other one. */
  ghost predicate Decisive(script: Script, inData: bool, i: nat) {
    && (forall j: nat | j < i :: HandsOver(ReceivesData(inData, j), ReplyAt(script, j).code))
    && !HandsOver(ReceivesData(inData, i), ReplyAt(script, i).code)
  }

  function Handle(s: Session, script: Script, inData: bool): Result {
    if inData then HandleData(s, script) else HandleHandshake(s, script)
  }

  /** How often the data handler has handed over before the i-th reply. */
  function Rehandshakes(inData: bool, i: nat): nat {
    if inData then (i + 1) / 2 else i / 2
  }

  /** Each time it does, it announces Renegotiating. */
  function Announced(state: State, times: nat): seq<Notice>
    decreases times
  {
    if times == 0 then [] else [Notice(state, Renegotiating)] + Announced(Renegotiating, times - 1)
  }

  /** The sizes pulled in the library calls up to the i-th. */
  function Pulls(script: Script, i: nat): seq<nat> {
    if i == 0 then Head(script).pulls else Head(script).pulls + Pulls(Tail(script), i - 1)
  }

  /** For the data handler every error is fatal; for a handshake all but GNUTLS_E_AGAIN and success. */
  predicate Fatal(isData: bool, code: int) {
    if isData then code < 0 else code != -28 && code != 0
  }

  /** The session and the outcome after reply `i` has decided, field by field. */
  function Verdict(s: Session, script: Script, inData: bool, i: nat): Result {
    var isData, reply, times := ReceivesData(inData, i), ReplyAt(script, i), Rehandshakes(inData, i);
    var state := if times > 0 then Renegotiating else s.state;
    var ends := if isData then Closed else Open;
    Result(
      Session(
        if Fatal(isData, reply.code) then Aborted else if reply.code == 0 then ends else state,
        LeftBuffered(s, Pulls(script, i)),
        s.notices + Announced(s.state, times) + (if reply.code == 0 then [Notice(state, ends)] else []),
        s.byes + (if isData && reply.code == 0 then 1 else 0),
        s.arrived,
        s.pulled + PulledBy(s, Pulls(script, i)),
        s.propagated + (if isData && reply.code > 0 then [reply.plaintext] else [])),
      if Fatal(isData, reply.code) then Failed(reply.code) else Done)
  }

  lemma DecisiveShifts(script: Script, inData: bool, i: nat)
    requires Decisive(script, inData, i) && i > 0
    ensures Decisive(Tail(script), !inData, i - 1)
    ensures ReplyAt(Tail(script), i - 1) == ReplyAt(script, i)
    ensures ReceivesData(!inData, i - 1) == ReceivesData(inData, i)
    ensures HandsOver(inData, Head(script).code)
  {
    assert HandsOver(ReceivesData(inData, 0), ReplyAt(script, 0).code);
    forall j: nat | j < i
      ensures ReplyAt(Tail(script), j) == ReplyAt(script, j + 1)
      ensures ReceivesData(!inData, j) == ReceivesData(inData, j + 1)
    {
    }
    forall j: nat | j < i - 1
      ensures HandsOver(ReceivesData(!inData, j), ReplyAt(Tail(script), j).code)
    {
      assert HandsOver(ReceivesData(inData, j + 1), ReplyAt(script, j + 1).code);
    }
  }

  lemma DecidedAtOnce(s: Session, script: Script, inData: bool)
    requires !HandsOver(inData, Head(script).code) && s.state != Closed
    ensures Handle(s, script, inData) == Verdict(s, script, inData, 0)
  {
    PullAllOnce(s, Head(script).pulls);
    assert s.notices + [] == s.notices && s.propagated + [] == s.propagated;
  }

  lemma PulledTogether(s: Session, xs: seq<nat>, ys: seq<nat>)
    ensures
      var s1 := s.(current := LeftBuffered(s, xs), pulled := s.pulled + PulledBy(s, xs));
      && LeftBuffered(s1, ys) == LeftBuffered(s, xs + ys)
      && PulledBy(s, xs) + PulledBy(s1, ys) == PulledBy(s, xs + ys)
  {
    if xs == [] {
      assert xs + ys == ys;
    }
  }

  lemma AnnouncedShifts(s: Session, inData: bool, i: nat)
    requires i > 0
    ensures
      var times := Rehandshakes(!inData, i - 1);
      if inData then
        && Rehandshakes(inData, i) == times + 1
        && s.notices + [Notice(s.state, Renegotiating)] + Announced(Renegotiating, times)
           == s.notices + Announced(s.state, times + 1)
      else Rehandshakes(inData, i) == times
  {
  }

  lemma VerdictAfterHandOver(s: Session, script: Script, inData: bool, i: nat)
    requires i > 0
    requires ReplyAt(Tail(script), i - 1) == ReplyAt(script, i)
    requires ReceivesData(!inData, i - 1) == ReceivesData(inData, i)
    ensures
      var s1 := PullAll(s, Head(script).pulls);
      var next := if inData then SetState(s1, Renegotiating) else s1;
      Verdict(next, Tail(script), !inData, i - 1) == Verdict(s, script, inData, i)
  {
    hide PullAll, Pulls, PulledBy, LeftBuffered, Announced, Rehandshakes, ReplyAt, ReceivesData, Fatal;
    AnnouncedShifts(s, inData, i);
    PullsShift(s, script, inData, i);
  }

  lemma PullsShift(s: Session, script: Script, inData: bool, i: nat)
    requires i > 0
    ensures
      var s1 := PullAll(s, Head(script).pulls);
      var next, sizes := if inData then SetState(s1, Renegotiating) else s1, Pulls(Tail(script), i - 1);
      && s1 == s.(current := s1.current, pulled := s1.pulled)
      && LeftBuffered(next, sizes) == LeftBuffered(s, Pulls(script, i))
      && next.pulled + PulledBy(next, sizes) == s.pulled + PulledBy(s, Pulls(script, i))
  {
    hide PullAll;
    PullAllOnce(s, Head(script).pulls);
    PulledTogether(s, Head(script).pulls, Pulls(Tail(script), i - 1));
  }

  /**
   * The handlers' mutual recursion ends at the first reply that is not a hand-over, and that reply
   * decides outcome and session completely: the state, every notice, whether `gnutls_bye` is called,
   * what is pulled and what is handed up.
   */
  lemma {:induction false} FirstDecisiveReplyDecides(s: Session, script: Script, inData: bool, i: nat)
    requires Decisive(script, inData, i) && s.state != Closed
    ensures Handle(s, script, inData) == Verdict(s, script, inData, i)
    decreases i
  {
    hide Verdict, PullAll;
    if i == 0 {
      DecidedAtOnce(s, script, inData);
    } else {
      DecisiveShifts(script, inData, i);
      VerdictAfterHandOver(s, script, inData, i);
      HandOverCalls(s, script, inData);
      var s1 := PullAll(s, Head(script).pulls);
      var next := if inData then SetState(s1, Renegotiating) else s1;
      FirstDecisiveReplyDecides(next, Tail(script), !inData, i - 1);
    }
  }

  lemma HandOverCalls(s: Session, script: Script, inData: bool)
    requires HandsOver(inData, Head(script).code)
    ensures
      var s1 := PullAll(s, Head(script).pulls);
      var next := if inData then SetState(s1, Renegotiating) else s1;
      Handle(s, script, inData) == Handle(next, Tail(script), !inData)
    ensures s.state != Closed ==> PullAll(s, Head(script).pulls).state != Closed
  {
    PullAllOnce(s, Head(script).pulls);
  }

  /** Such a reply always comes, at the latest when the script is used up. */
  lemma {:induction false} SomeReplyDecides(script: Script, inData: bool) returns (i: nat)
    ensures i <= |script| && Decisive(script, inData, i)
  {
    if !HandsOver(inData, Head(script).code) {
      i := 0;
    } else {
      var k := SomeReplyDecides(script[1..], !inData);
      i := k + 1;
      forall j: nat | j <= k
        ensures ReplyAt(script, j + 1) == ReplyAt(script[1..], j)
        ensures ReceivesData(inData, j + 1) == ReceivesData(!inData, j)
      {
      }
      forall j: nat | j < i
        ensures HandsOver(ReceivesData(inData, j), ReplyAt(script, j).code)
      {
        if j > 0 {
          assert HandsOver(ReceivesData(!inData, j - 1), ReplyAt(script[1..], j - 1).code);
        }
      }
    }
  }

  // ---- What each call does ----

  /** `open` on a new session announces Opening, then shakes hands as the deciding reply says. */
  lemma OpenDecides(s: Session, script: Script, i: nat)
    requires s.state == Invalid && Decisive(script, false, i)
    ensures
      var opening := s.(state := Opening, notices := s.notices + [Notice(Invalid, Opening)]);
      Perform(s, OpenCall(script)) == Verdict(opening, script, false, i)
  {
    hide HandleHandshake, Verdict;
    FirstDecisiveReplyDecides(SetState(s, Opening), script, false, i);
  }

  /** A packet read by an active session is buffered, then handled as the deciding reply says. */
  lemma ReadDecides(s: Session, packet: bytes, script: Script, i: nat)
    requires s.state.Active() && Decisive(script, s.state == Open, i)
    ensures
      var buffered := s.(arrived := s.arrived + [packet], current := Some(packet));
      Perform(s, ReadCall(packet, script)) == Verdict(buffered, script, s.state == Open, i)
  {
    hide HandleHandshake, HandleData, Verdict;
    var buffered := s.(arrived := s.arrived + [packet], current := Some(packet));
    FirstDecisiveReplyDecides(buffered, script, s.state == Open, i);
  }

  /** `renegotiate` and `close` announce one change of state each; `close` says goodbye first. */
  lemma RenegotiateAndCloseAnnounce(s: Session)
    ensures s.state == Open ==>
              Perform(s, RenegotiateCall)
              == Result(s.(state := Renegotiating, notices := s.notices + [Notice(Open, Renegotiating)]), Done)
    ensures s.state.Active() ==>
              Perform(s, CloseCall)
              == Result(s.(state := Closed, notices := s.notices + [Notice(s.state, Closed)], byes := s.byes + 1), Done)
  {
  }

  /** The states in which a call is served. */
  predicate Serves(state: State, call: Call) {
    match call
    case OpenCall(_) => state == Invalid
    case RenegotiateCall => state == Open
    case CloseCall => state.Active()
    case ReadCall(_, _) => state.Active()
    case WriteCall(_) => state == Open
  }

  /** A call is refused exactly outside those states, and then changes nothing, except that a packet read is buffered. */
  lemma RefusedIffNotServed(s: Session, call: Call)
    ensures Perform(s, call).outcome == NotReady <==> !Serves(s.state, call)
    ensures !Serves(s.state, call) ==>
              Perform(s, call).session
              == if call.ReadCall? then s.(arrived := s.arrived + [call.packet], current := Some(call.packet)) else s
  {
    hide HandleHandshake, HandleData, Verdict;
    match call
    case OpenCall(script) =>
      if s.state == Invalid {
        var i := SomeReplyDecides(script, false);
        OpenDecides(s, script, i);
        VerdictIsReady(SetState(s, Opening), script, false, i);
      }
    case ReadCall(packet, script) =>
      if s.state.Active() {
        var i := SomeReplyDecides(script, s.state == Open);
        ReadDecides(s, packet, script, i);
        VerdictIsReady(s.(arrived := s.arrived + [packet], current := Some(packet)), script, s.state == Open, i);
      }
    case _ =>
  }

  lemma VerdictIsReady(s: Session, script: Script, inData: bool, i: nat)
    ensures Verdict(s, script, inData, i).outcome != NotReady
  {
  }

  /** `write` answers false, throws or answers true as the library's result says, and never touches the session. */
  lemma WriteAnswers(s: Session, sendResult: int)
    ensures
      var r := Perform(s, WriteCall(sendResult));
      && r.session == s
      && (r.outcome == NotReady <==> s.state != Open)
      && (r.outcome == Refused <==> s.state == Open && sendResult == -28)
      && (r.outcome == Failed(sendResult) <==> s.state == Open && sendResult < 0 && sendResult != -28)
      && (r.outcome == Done <==> s.state == Open && sendResult >= 0)
  {
  }

  /**
   * A session is aborted exactly when a call other than `write` reports a failure; `write` leaves the
   * session alone, whatever the library answers.
   */
  lemma FailureMeansAborted(s: Session, call: Call)
    requires s.state != Aborted
    ensures
      var r := Perform(s, call);
      if call.WriteCall? then r.session == s
      else r.outcome.Failed? <==> r.session.state == Aborted
  {
    hide HandleHandshake, HandleData;
    RefusedIffNotServed(s, call);
    match call
    case OpenCall(script) =>
      if s.state == Invalid {
        var i := SomeReplyDecides(script, false);
        OpenDecides(s, script, i);
      }
    case ReadCall(packet, script) =>
      if s.state.Active() {
        var i := SomeReplyDecides(script, s.state == Open);
        ReadDecides(s, packet, script, i);
      }
    case _ =>
  }

  /**
   * A packet read by an active session is what the first pull of that call gets, cut to the size asked
   * for, and no later pull gets anything; if the library does not pull, it stays buffered.
   */
  lemma ArrivalIsPulledOnce(s: Session, packet: bytes, script: Script, i: nat)
    requires s.state.Active() && Decisive(script, s.state == Open, i)
    ensures
      var t, sizes := Perform(s, ReadCall(packet, script)).session, Pulls(script, i);
      && t.pulled == s.pulled + (if sizes == [] then [] else [Pulled(|s.arrived|, packet[..Min(sizes[0], |packet|)])])
      && t.current == if sizes == [] then Some(packet) else None
  {
    hide HandleHandshake, HandleData;
    ReadDecides(s, packet, script, i);
  }

  /** Reading a packet aborts an active session exactly if the reply that decides is a fatal one. */
  lemma AbortedIffFatal(s: Session, packet: bytes, script: Script, i: nat)
    requires s.state.Active() && Decisive(script, s.state == Open, i)
    ensures
      Perform(s, ReadCall(packet, script)).session.state == Aborted
      <==> Fatal(ReceivesData(s.state == Open, i), ReplyAt(script, i).code)
  {
    hide HandleHandshake, HandleData;
    ReadDecides(s, packet, script, i);
  }

  /**
   * `GNUTLS_E_AGAIN`, which only says that nothing can be read yet, is harmless during a handshake
   * and aborts the session exactly if it is Open.
   */
  lemma AgainAbortsIffOpen(s: Session, packet: bytes, pulls: seq<nat>)
    requires s.state.Active()
    ensures Perform(s, ReadCall(packet, [Reply(pulls, AGAIN, [])])).session.state == Aborted <==> s.state == Open
  {
    hide HandleHandshake, HandleData;
    AbortedIffFatal(s, packet, [Reply(pulls, AGAIN, [])], 0);
  }

  // ---- The session object ----

  class CryptoSession {
    var state: State
    var currentPacket: Option<bytes>

    // What listeners, the library and the next stream have seen.
    var notices: seq<Notice>
    var byes: nat
    var arrived: seq<bytes>
    var pulled: seq<Pulled>
    var propagated: seq<bytes>

    function View(): Session
      reads this
    {
      Session(state, currentPacket, notices, byes, arrived, pulled, propagated)
    }

    constructor ()
      ensures View() == CREATED
    {
      state, currentPacket, notices, byes := Invalid, None, [], 0;
      arrived, pulled, propagated := [], [], [];
    }

    method ChangeState(next: State)
      modifies this
      ensures View() == SetState(old(View()), next)
    {
      var before := state;
      state := next;
      notices := notices + [Notice(before, state)];
    }

    method Bye()
      modifies this`byes
      ensures byes == old(byes) + 1
    {
      byes := byes + 1;
    }

    /** The transport callback; -1 stands for EAGAIN. */
    method TransportPull(size: nat) returns (length: int)
      modifies this
      ensures View() == Pull(old(View()), size)
      ensures length == if old(currentPacket).Some? then Min(size, |old(currentPacket).value|) else -1
    {
      if currentPacket.Some? {
        var packet := currentPacket.value;
        length := if size < |packet| then size else |packet|;
        pulled := pulled + [Pulled(|arrived| - 1, packet[..length])];
        currentPacket := None;
      } else {
        length := -1;
      }
    }

    /** A call into the library: it pulls as the script says, then returns the scripted reply. */
    method CallLibrary(script: Script) returns (reply: Reply, rest: Script)
      modifies this
      ensures reply == Head(script) && rest == Tail(script)
      ensures View() == PullAll(old(View()), reply.pulls)
    {
      reply, rest := Head(script), Tail(script);
      var sizes := reply.pulls;
      while sizes != []
        invariant PullAll(View(), sizes) == PullAll(old(View()), reply.pulls)
        decreases |sizes|
      {
        var _ := TransportPull(sizes[0]);
        sizes := sizes[1..];
      }
    }

    method OnHandshake(script: Script) returns (outcome: Outcome)
      modifies this
      ensures Result(View(), outcome) == HandleHandshake(old(View()), script)
      decreases |script|
    {
      var reply, rest := CallLibrary(script);
      if reply.code == GOT_APPLICATION_DATA {
        outcome := OnData(rest);
      } else if reply.code == AGAIN {
        outcome := Done;
      } else if reply.code == SUCCESS {
        ChangeState(Open);
        outcome := Done;
      } else {
        state := Aborted;
        outcome := Failed(reply.code);
      }
    }

    method OnData(script: Script) returns (outcome: Outcome)
      modifies this
      ensures Result(View(), outcome) == HandleData(old(View()), script)
      decreases |script|
    {
      var reply, rest := CallLibrary(script);
      if reply.code < 0 {
        if reply.code == REHANDSHAKE {
          ChangeState(Renegotiating);
          outcome := OnHandshake(rest);
        } else {
          state := Aborted;
          outcome := Failed(reply.code);
        }
      } else if reply.code == 0 {
        if state != Closed {
          Bye();
        }
        ChangeState(Closed);
        outcome := Done;
      } else {
        propagated := propagated + [reply.plaintext];
        outcome := Done;
      }
    }

    method OpenSession(script: Script) returns (outcome: Outcome)
      modifies this
      ensures Result(View(), outcome) == Perform(old(View()), OpenCall(script))
    {
      if state != Invalid {
        return NotReady;
      }
      ChangeState(Opening);
      outcome := OnHandshake(script);
    }

    method Renegotiate() returns (outcome: Outcome)
      modifies this
      ensures Result(View(), outcome) == Perform(old(View()), RenegotiateCall)
    {
      if state != Open {
        return NotReady;
      }
      ChangeState(Renegotiating);
      outcome := Done;
    }

    method Close() returns (outcome: Outcome)
      modifies this
      ensures Result(View(), outcome) == Perform(old(View()), CloseCall)
    {
      if state == Invalid || state == Closed || state == Aborted {
        return NotReady;
      }
      Bye();
      ChangeState(Closed);
      outcome := Done;
    }

    method ReadPacket(packet: bytes, script: Script) returns (outcome: Outcome)
      modifies this
      ensures Result(View(), outcome) == Perform(old(View()), ReadCall(packet, script))
    {
      arrived := arrived + [packet];
      currentPacket := Some(packet);
      if state == Opening || state == Renegotiating {
        outcome := OnHandshake(script);
      } else if state == Open {
        outcome := OnData(script);
      } else {
        outcome := NotReady;
      }
    }

    /** `sendResult` is what `gnutls_record_send` answers. */
    method Write(sendResult: int) returns (outcome: Outcome)
      ensures Result(View(), outcome) == Perform(View(), WriteCall(sendResult))
    {
      if state != Open {
        outcome := NotReady;
      } else if sendResult == AGAIN {
        outcome := Refused;
      } else if sendResult < 0 {
        outcome := Failed(sendResult);
      } else {
        outcome := Done;
      }
    }
  }
}
