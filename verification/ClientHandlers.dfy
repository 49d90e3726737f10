/**
 The handler of one connection. Between two resumptions it runs from where it was suspended to the
 next `yield`, or to its end. What the socket, the clock and the callback do is a parameter of each
 stretch of execution.
 */
module ClientHandlers {
  import opened Sequences

  datatype Timeouts = Timeouts(read: int, write: int)

  /** The three readings of the clock in `is_timed_out`. */
  datatype Wake = Wake(first: int, second: int, third: int)

  /** A write accepts some prefix of the bytes offered, possibly none, or throws. */
  datatype WriteResult = Accepts(count: nat) | WriteThrows

  /**
   A non-empty `read_all`: the request leads to a response, the text of which is then written once,
   or reading, parsing or the callback throws.
   */
  datatype Input = Request(response: string, keepAlive: bool, write: WriteResult) | RequestThrows

  /** All that a resumed handler meets: the clock, a repeated write, and what can be read. */
  datatype Visit = Visit(wake: Wake, write: WriteResult, inputs: seq<Input>)

  datatype Place = Reading | Sending(rest: string, keepAlive: bool)

  /** A suspended handler, with the bytes its socket has accepted and the responses it has produced. */
  datatype Session = Session(lastResumed: int, place: Place, sent: string, responses: seq<string>)

  datatype Status = Suspended | Ended | Raised

  datatype Step = Continue(session: Session) | Stop(session: Session, status: Status)

  function NewSession(now: int): Session {
    Session(now, Reading, "", [])
  }

  predicate TimedOut(t: Timeouts, lastResumed: int, w: Wake) {
    w.first - lastResumed >= t.read || w.second - lastResumed >= t.write
  }

  /** One `write` of what is left of a response, and what follows from how much it accepts. */
  function Written(s: Session, rest: string, keepAlive: bool, w: WriteResult): Step {
    match w
    case WriteThrows => Stop(s, Raised)
    case Accepts(count) =>
      if count < |rest| then
        Stop(s.(sent := s.sent + rest[..count], place := Sending(rest[count..], keepAlive)), Suspended)
      else
        var s' := s.(sent := s.sent + rest, place := Reading);
        if keepAlive then Continue(s') else Stop(s', Ended)
  }

  /** The loop of `handle`, from the top. */
  function Served(s: Session, inputs: seq<Input>): (Session, Status)
    decreases |inputs|
  {
    if inputs == [] then (s.(place := Reading), Suspended)
    else match inputs[0]
      case RequestThrows => (s, Raised)
      case Request(response, keepAlive, w) =>
        match Written(s.(responses := s.responses + [response]), response, keepAlive, w)
        case Continue(s') => Served(s', inputs[1..])
        case Stop(s', status) => (s', status)
  }

  /** The handler is resumed where it yielded. */
  function Resumed(t: Timeouts, s: Session, v: Visit): (Session, Status) {
    if TimedOut(t, s.lastResumed, v.wake) then (s, Ended)
    else
      var s' := s.(lastResumed := v.wake.third);
      match s'.place
      case Reading => Served(s', v.inputs)
      case Sending(rest, keepAlive) =>
        match Written(s', rest, keepAlive, v.write)
        case Continue(s'') => Served(s'', v.inputs)
        case Stop(s'', status) => (s'', status)
  }

  // ----- what a session sends

  /** Every response but the last is complete, and the last is cut to a prefix at worst. */
  ghost predicate Delivered(s: Session) {
    && s.sent <= Concat(s.responses)
    && (s.responses != [] ==> Concat(s.responses[..|s.responses| - 1]) <= s.sent)
  }

  /** Nothing is owed, or exactly the rest that the handler is about to write. */
  ghost predicate Accounted(s: Session) {
    && Delivered(s)
    && match s.place
       case Reading => s.sent == Concat(s.responses)
       case Sending(rest, _) => rest != "" && s.sent + rest == Concat(s.responses)
  }

  /** The state in which a stretch of execution leaves the session. */
  ghost predicate Settles(s: Session, status: Status) {
    Delivered(s) && (status == Suspended ==> Accounted(s))
  }

  lemma WrittenSettles(s: Session, rest: string, keepAlive: bool, w: WriteResult)
    requires Delivered(s) && s.responses != []
    requires s.sent + rest == Concat(s.responses)
    ensures match Written(s, rest, keepAlive, w)
            case Continue(s') => s'.place == Reading && Accounted(s')
            case Stop(s', status) =>
              Settles(s', status) && (status == Ended ==> s'.sent == Concat(s'.responses))
    ensures s.sent <= Written(s, rest, keepAlive, w).session.sent
  {
    if w.Accepts? && w.count < |rest| {
      ConcatThree(s.sent, rest[..w.count], rest[w.count..]);
    }
  }

  lemma {:induction false} ServedSettles(s: Session, inputs: seq<Input>)
    requires Accounted(s) && s.place == Reading
    ensures var (r, status) := Served(s, inputs);
            && Settles(r, status)
            && (status == Ended ==> r.sent == Concat(r.responses))
            && s.sent <= r.sent
    decreases |inputs|
  {
    if inputs != [] && inputs[0].Request? {
      var Request(response, keepAlive, w) := inputs[0];
      var asked := s.(responses := s.responses + [response]);
      ConcatSnoc(s.responses, response);
      assert asked.responses[..|asked.responses| - 1] == s.responses;
      WrittenSettles(asked, response, keepAlive, w);
      var step := Written(asked, response, keepAlive, w);
      if step.Continue? {
        ServedSettles(step.session, inputs[1..]);
      }
    }
  }

  /** One resumption: bytes are only added, and only a timeout or an exception leaves a response cut. */
  lemma ResumedSettles(t: Timeouts, s: Session, v: Visit)
    requires Accounted(s)
    ensures var (r, status) := Resumed(t, s, v);
            && Settles(r, status)
            && s.sent <= r.sent
            && (status == Ended && r.sent != Concat(r.responses) ==>
                  r == s && s.place.Sending? && TimedOut(t, s.lastResumed, v.wake))
  {
    if !TimedOut(t, s.lastResumed, v.wake) {
      var s' := s.(lastResumed := v.wake.third);
      match s'.place {
        case Reading => ServedSettles(s', v.inputs);
        case Sending(rest, keepAlive) =>
          PrefixResponses(s');
          WrittenSettles(s', rest, keepAlive, v.write);
          var step := Written(s', rest, keepAlive, v.write);
          if step.Continue? {
            ServedSettles(step.session, v.inputs);
          }
      }
    }
  }

  lemma PrefixResponses(s: Session)
    requires Accounted(s) && s.place.Sending?
    ensures s.responses != []
  {
    assert s.responses == [] ==> Concat(s.responses) == "";
  }

  /** A whole connection: the first stretch, then one per resumption until the handler is over. */
  function Connection(t: Timeouts, now: int, inputs: seq<Input>, visits: seq<Visit>): (Session, Status) {
    if visits == [] then Served(NewSession(now), inputs)
    else
      var (s, status) := Connection(t, now, inputs, visits[..|visits| - 1]);
      if status == Suspended then Resumed(t, s, visits[|visits| - 1]) else (s, status)
  }

  /**
   For every pattern of reads, partial writes, yields and timeouts, the bytes sent are the responses
   in the order of the requests, the last possibly cut short; and a response stays cut only if the
   handler has ended, by an exception or by a timeout while it was sending.
   */
  lemma {:induction false} ConnectionIntegrity(t: Timeouts, now: int, inputs: seq<Input>, visits: seq<Visit>)
    ensures var (s, status) := Connection(t, now, inputs, visits);
            && Settles(s, status)
            && (status == Ended && s.sent != Concat(s.responses) ==> s.place.Sending?)
  {
    if visits == [] {
      ServedSettles(NewSession(now), inputs);
    } else {
      var front := visits[..|visits| - 1];
      ConnectionIntegrity(t, now, inputs, front);
      var (s, status) := Connection(t, now, inputs, front);
      if status == Suspended {
        ResumedSettles(t, s, visits[|visits| - 1]);
      }
    }
  }

  /** The responses that a series of inputs leads to, as long as nothing throws. */
  function Answers(inputs: seq<Input>): seq<string> {
    if inputs == [] || inputs[0].RequestThrows? then [] else [inputs[0].response] + Answers(inputs[1..])
  }

  /** Requests are answered in order from the first, and all of them before the handler waits for more. */
  lemma {:induction false} ServedAnswers(s: Session, inputs: seq<Input>)
    ensures var (r, status) := Served(s, inputs);
            && s.responses <= r.responses
            && r.responses[|s.responses|..] <= Answers(inputs)
            && (status == Suspended && r.place.Reading? ==>
                  r.responses == s.responses + Answers(inputs) && |Answers(inputs)| == |inputs|)
    decreases |inputs|
  {
    if inputs != [] && inputs[0].Request? {
      var Request(response, keepAlive, w) := inputs[0];
      var step := Written(s.(responses := s.responses + [response]), response, keepAlive, w);
      if step.Continue? {
        ServedAnswers(step.session, inputs[1..]);
        var r := Served(s, inputs).0;
        assert r.responses[|s.responses|..] == [response] + r.responses[|s.responses| + 1..];
        ConcatThree(s.responses, [response], Answers(inputs[1..]));
      }
    }
  }

  // ----- which requests are taken up, and how the handler goes on after each

  /** A request whose response is accepted in one write. */
  predicate Whole(i: Input) {
    i.Request? && i.write.Accepts? && i.write.count >= |i.response|
  }

  /** A request after which the handler reads on at once. */
  predicate ReadsOn(i: Input) {
    Whole(i) && i.keepAlive
  }

  /**
   What a stretch that starts with reading does: `r.responses` tells how many requests it takes up, and
   the last of them, or what is read after it, tells how the stretch ends.
   */
  ghost predicate Explains(s: Session, inputs: seq<Input>, r: Session, status: Status) {
    var k := |r.responses| - |s.responses|;
    && 0 <= k <= |inputs|
    && r.responses[..|s.responses|] == s.responses
    && (forall j :: 0 <= j < k ==> inputs[j].Request? && r.responses[|s.responses| + j] == inputs[j].response)
    && (forall j :: 0 <= j < k - 1 ==> ReadsOn(inputs[j]))
    && (status == Ended <==> k > 0 && Whole(inputs[k - 1]) && !inputs[k - 1].keepAlive)
    && (status == Raised <==>
          || (k > 0 && inputs[k - 1].write.WriteThrows?)
          || ((k == 0 || ReadsOn(inputs[k - 1])) && k < |inputs| && inputs[k].RequestThrows?))
    && (status == Suspended && r.place.Reading? <==> k == |inputs| && (k == 0 || ReadsOn(inputs[k - 1])))
    && (status == Suspended && r.place.Sending? ==>
          && k > 0
          && var i := inputs[k - 1];
             && i.write.Accepts? && i.write.count < |i.response|
             && r.place == Sending(i.response[i.write.count..], i.keepAlive))
  }

  lemma {:induction false} ServedExplained(s: Session, inputs: seq<Input>)
    requires s.place == Reading
    ensures Explains(s, inputs, Served(s, inputs).0, Served(s, inputs).1)
    decreases |inputs|
  {
    if inputs != [] && inputs[0].Request? {
      var Request(response, keepAlive, w) := inputs[0];
      var asked := s.(responses := s.responses + [response]);
      var step := Written(asked, response, keepAlive, w);
      if step.Continue? {
        ServedExplained(step.session, inputs[1..]);
        ExplainsOneMore(s, inputs, step.session, Served(s, inputs).0, Served(s, inputs).1);
      }
    }
  }

  lemma ExplainsOneMore(s: Session, inputs: seq<Input>, next: Session, r: Session, status: Status)
    requires inputs != [] && ReadsOn(inputs[0])
    requires next.responses == s.responses + [inputs[0].response]
    requires Explains(next, inputs[1..], r, status)
    ensures Explains(s, inputs, r, status)
  {
    var k := |r.responses| - |s.responses|;
    assert r.responses[..|s.responses|] == r.responses[..|next.responses|][..|s.responses|];
    assert r.responses[|s.responses|] == r.responses[..|next.responses|][|s.responses|];
    forall j | 0 < j < k
      ensures inputs[j].Request? && r.responses[|s.responses| + j] == inputs[j].response
      ensures j < k - 1 ==> ReadsOn(inputs[j])
    {
      assert inputs[j] == inputs[1..][j - 1];
    }
  }

  /** Reading, parsing or the callback throws, or else the write. */
  predicate Throws(i: Input) {
    i.RequestThrows? || i.write.WriteThrows?
  }

  /** An input throws, and the handler gets that far. */
  ghost predicate Strikes(inputs: seq<Input>) {
    exists j :: 0 <= j < |inputs| && Throws(inputs[j]) && forall i :: 0 <= i < j ==> ReadsOn(inputs[i])
  }

  /** A stretch that starts with reading ends in an exception exactly when one of its inputs throws and is reached. */
  lemma ServedRaises(s: Session, inputs: seq<Input>)
    requires s.place == Reading
    ensures Served(s, inputs).1 == Raised <==> Strikes(inputs)
  {
    var (r, status) := Served(s, inputs);
    ServedExplained(s, inputs);
    RaisesExactly(s, inputs, r, status);
  }

  lemma RaisesExactly(s: Session, inputs: seq<Input>, r: Session, status: Status)
    requires Explains(s, inputs, r, status)
    ensures status == Raised <==> Strikes(inputs)
  {
    var k := |r.responses| - |s.responses|;
    if status == Raised {
      var j := if k > 0 && inputs[k - 1].write.WriteThrows? then k - 1 else k;
      assert Throws(inputs[j]) && forall i :: 0 <= i < j ==> ReadsOn(inputs[i]);
    }
  }

  /** So does a resumption, unless it comes too late; in the middle of a response its rest is written first. */
  lemma ResumedRaises(t: Timeouts, s: Session, v: Visit)
    ensures Resumed(t, s, v).1 == Raised <==>
              && v.wake.first - s.lastResumed < t.read && v.wake.second - s.lastResumed < t.write
              && match s.place
                 case Reading => Strikes(v.inputs)
                 case Sending(rest, keepAlive) =>
                   v.write.WriteThrows? || (v.write.count >= |rest| && keepAlive && Strikes(v.inputs))
  {
    var s' := s.(lastResumed := v.wake.third);
    match s.place {
      case Reading => ServedRaises(s', v.inputs);
      case Sending(rest, keepAlive) =>
        var step := Written(s', rest, keepAlive, v.write);
        if step.Continue? {
          ServedRaises(step.session, v.inputs);
        }
    }
  }

  /** The inputs that a stretch takes up: those whose responses it adds. */
  function Upheld(before: Session, after: Session, inputs: seq<Input>): seq<Input> {
    var k := |after.responses| - |before.responses|;
    if 0 <= k <= |inputs| then inputs[..k] else []
  }

  /** All requests that a connection takes up. */
  function Requests(t: Timeouts, now: int, inputs: seq<Input>, visits: seq<Visit>): seq<Input> {
    if visits == [] then Upheld(NewSession(now), Served(NewSession(now), inputs).0, inputs)
    else
      var front, v := visits[..|visits| - 1], visits[|visits| - 1];
      var (s, status) := Connection(t, now, inputs, front);
      Requests(t, now, inputs, front)
      + if status == Suspended then Upheld(s, Resumed(t, s, v).0, v.inputs) else []
  }

  /** A timeout has ended the handler. */
  predicate CutOff(t: Timeouts, now: int, inputs: seq<Input>, visits: seq<Visit>)
    decreases |visits|
  {
    visits != [] &&
    (var front, w := visits[..|visits| - 1], visits[|visits| - 1].wake;
     var (s, status) := Connection(t, now, inputs, front);
     || CutOff(t, now, inputs, front)
     || (status == Suspended && (w.first - s.lastResumed >= t.read || w.second - s.lastResumed >= t.write)))
  }

  ghost predicate Answered(s: Session, q: seq<Input>) {
    && |s.responses| == |q|
    && (forall j :: 0 <= j < |q| ==> q[j].Request? && s.responses[j] == q[j].response)
  }

  ghost predicate AllKeepAlive(q: seq<Input>) {
    forall j :: 0 <= j < |q| ==> q[j].Request? && q[j].keepAlive
  }

  /** The requests taken up, and what the last of them has to do with where the handler stands. */
  ghost predicate Chronicles(s: Session, status: Status, q: seq<Input>, cut: bool) {
    && Answered(s, q)
    && (q != [] ==> AllKeepAlive(q[..|q| - 1]))
    && (cut ==> status == Ended && (s.sent == Concat(s.responses) ==> AllKeepAlive(q)))
    && (status == Suspended && s.place.Reading? ==> AllKeepAlive(q))
    && (status == Suspended && s.place.Sending? ==> q != [] && s.place.keepAlive == q[|q| - 1].keepAlive)
    && (status == Ended && !cut ==> q != [] && !q[|q| - 1].keepAlive && s.sent == Concat(s.responses))
  }

  lemma UpheldAnswered(s: Session, inputs: seq<Input>, r: Session, status: Status, q: seq<Input>)
    requires Answered(s, q) && Explains(s, inputs, r, status)
    ensures Answered(r, q + Upheld(s, r, inputs))
  {
    var all := q + Upheld(s, r, inputs);
    forall j | 0 <= j < |all| ensures all[j].Request? && r.responses[j] == all[j].response {
      if j < |q| {
        assert r.responses[j] == r.responses[..|s.responses|][j];
      } else {
        assert r.responses[|s.responses| + (j - |q|)] == inputs[j - |q|].response;
      }
    }
  }

  lemma UpheldKeepAlive(s: Session, inputs: seq<Input>, r: Session, status: Status, q: seq<Input>)
    requires AllKeepAlive(q) && Explains(s, inputs, r, status)
    ensures var all := q + Upheld(s, r, inputs);
            && (all != [] ==> AllKeepAlive(all[..|all| - 1]))
            && (status == Suspended && r.place.Reading? ==> AllKeepAlive(all))
            && (status == Suspended && r.place.Sending? ==> all != [] && r.place.keepAlive == all[|all| - 1].keepAlive)
            && (status == Ended ==> all != [] && !all[|all| - 1].keepAlive)
  {
    var k := |r.responses| - |s.responses|;
    assert Upheld(s, r, inputs) == inputs[..k];
    if k > 0 {
      assert (q + inputs[..k])[|q| + k - 1] == inputs[k - 1];
    }
  }

  lemma ReadingChronicles(s: Session, inputs: seq<Input>, r: Session, status: Status, q: seq<Input>)
    requires Answered(s, q) && AllKeepAlive(q) && Explains(s, inputs, r, status)
    requires status == Ended ==> r.sent == Concat(r.responses)
    ensures Chronicles(r, status, q + Upheld(s, r, inputs), false)
  {
    UpheldAnswered(s, inputs, r, status, q);
    UpheldKeepAlive(s, inputs, r, status, q);
  }

  /** A stretch that starts with reading, on a connection whose requests so far all had Keep-Alive. */
  lemma ServedChronicles(s: Session, inputs: seq<Input>, q: seq<Input>) returns (r: Session, status: Status)
    requires Accounted(s) && s.place == Reading
    requires Answered(s, q) && AllKeepAlive(q)
    ensures (r, status) == Served(s, inputs) && Chronicles(r, status, q + Upheld(s, r, inputs), false)
  {
    r, status := Served(s, inputs).0, Served(s, inputs).1;
    ServedExplained(s, inputs);
    ServedSettles(s, inputs);
    ReadingChronicles(s, inputs, r, status, q);
  }

  /** One resumption. */
  lemma ResumedChronicles(t: Timeouts, s: Session, v: Visit, q: seq<Input>)
    requires Accounted(s)
    requires Chronicles(s, Suspended, q, false)
    ensures var (r, status) := Resumed(t, s, v);
            Chronicles(r, status, q + Upheld(s, r, v.inputs), TimedOut(t, s.lastResumed, v.wake))
  {
    EmptyBack(q);
    if TimedOut(t, s.lastResumed, v.wake) {
      assert s.place.Sending? ==> |s.sent| < |Concat(s.responses)|;
    } else {
      var s' := s.(lastResumed := v.wake.third);
      match s'.place {
        case Reading => var _, _ := ServedChronicles(s', v.inputs, q);
        case Sending(rest, keepAlive) => SendingChronicles(s', rest, keepAlive, v, q);
      }
    }
  }

  /** The rest of a response is written again, and if that completes it the handler may read on. */
  lemma SendingChronicles(s: Session, rest: string, keepAlive: bool, v: Visit, q: seq<Input>)
    requires Accounted(s) && s.place == Sending(rest, keepAlive)
    requires Chronicles(s, Suspended, q, false)
    ensures match Written(s, rest, keepAlive, v.write)
            case Stop(r, status) => Chronicles(r, status, q, false) && |r.responses| == |s.responses|
            case Continue(next) =>
              var (r, status) := Served(next, v.inputs);
              next.responses == s.responses && Chronicles(r, status, q + Upheld(next, r, v.inputs), false)
  {
    PrefixResponses(s);
    WrittenSettles(s, rest, keepAlive, v.write);
    var step := Written(s, rest, keepAlive, v.write);
    if step.Continue? {
      assert q == q[..|q| - 1] + [q[|q| - 1]];
      var _, _ := ServedChronicles(step.session, v.inputs, q);
    }
  }

  lemma ChroniclesDecide(s: Session, status: Status, q: seq<Input>, cut: bool)
    requires Chronicles(s, status, q, cut) && Settles(s, status) && status != Raised
    ensures status == Ended && !cut <==> q != [] && !q[|q| - 1].keepAlive && s.sent == Concat(s.responses)
  {
    if status == Suspended && s.place.Sending? {
      assert |s.sent| < |Concat(s.responses)|;
    }
  }

  lemma {:induction false} ConnectionChronicles(t: Timeouts, now: int, inputs: seq<Input>, visits: seq<Visit>)
    ensures var (s, status) := Connection(t, now, inputs, visits);
            Chronicles(s, status, Requests(t, now, inputs, visits), CutOff(t, now, inputs, visits))
  {
    if visits == [] {
      var r, _ := ServedChronicles(NewSession(now), inputs, []);
      EmptyFront(Upheld(NewSession(now), r, inputs));
    } else {
      var front, v := visits[..|visits| - 1], visits[|visits| - 1];
      var (s, status) := Connection(t, now, inputs, front);
      ConnectionChronicles(t, now, inputs, front);
      ConnectionIntegrity(t, now, inputs, front);
      if status == Suspended {
        ResumedChronicles(t, s, v, Requests(t, now, inputs, front));
      } else {
        EmptyBack(Requests(t, now, inputs, front));
      }
    }
  }

  /**
   For every connection: the responses are those to the requests taken up; all of these but the last had
   Keep-Alive, and so had the last if the handler waits for more; and unless an exception ended it, the
   handler has ended by itself exactly when the last had not and its response is completely sent.
   */
  lemma KeepAliveDecides(t: Timeouts, now: int, inputs: seq<Input>, visits: seq<Visit>)
    ensures var (s, status), q := Connection(t, now, inputs, visits), Requests(t, now, inputs, visits);
            && Chronicles(s, status, q, CutOff(t, now, inputs, visits))
            && (status != Raised ==>
                  (status == Ended && !CutOff(t, now, inputs, visits)
                   <==> q != [] && !q[|q| - 1].keepAlive && s.sent == Concat(s.responses)))
  {
    var (s, status) := Connection(t, now, inputs, visits);
    ConnectionIntegrity(t, now, inputs, visits);
    ConnectionChronicles(t, now, inputs, visits);
    if status != Raised {
      ChroniclesDecide(s, status, Requests(t, now, inputs, visits), CutOff(t, now, inputs, visits));
    }
  }

  // ----- timeouts

  /** Each resumption comes before either timeout has passed since the one before. */
  predicate Punctual(t: Timeouts, since: int, visits: seq<Visit>)
    decreases |visits|
  {
    visits == [] ||
    (Punctual(t, since, visits[..|visits| - 1])
     && var w, last := visits[|visits| - 1].wake, LastWake(since, visits[..|visits| - 1]);
        w.first - last < t.read && w.second - last < t.write)
  }

  function LastWake(since: int, visits: seq<Visit>): int {
    if visits == [] then since else visits[|visits| - 1].wake.third
  }

  /** A handler that is resumed often enough notes the time on each occasion and is never cut off. */
  lemma {:induction false} PunctualNotCut(t: Timeouts, now: int, inputs: seq<Input>, visits: seq<Visit>)
    requires Punctual(t, now, visits)
    ensures var (s, status) := Connection(t, now, inputs, visits);
            && (status == Suspended ==> s.lastResumed == LastWake(now, visits))
            && (status == Ended ==> s.sent == Concat(s.responses))
  {
    if visits == [] {
      ServedSettles(NewSession(now), inputs);
      ServedClock(NewSession(now), inputs);
    } else {
      var front, v := visits[..|visits| - 1], visits[|visits| - 1];
      PunctualNotCut(t, now, inputs, front);
      ConnectionIntegrity(t, now, inputs, front);
      var (s, status) := Connection(t, now, inputs, front);
      if status == Suspended {
        ResumedSettles(t, s, v);
        ResumedNotes(t, s, v);
      }
    }
  }

  /** A handler that is suspended for as long as either timeout ends when it is resumed, and sends nothing more. */
  lemma LateEnds(t: Timeouts, s: Session, v: Visit)
    requires v.wake.first - s.lastResumed >= t.read || v.wake.second - s.lastResumed >= t.write
    ensures Resumed(t, s, v) == (s, Ended)
  {
  }

  /** So does one that is suspended for as long as the shorter timeout. */
  lemma IdleEnds(t: Timeouts, s: Session, v: Visit)
    requires v.wake.first <= v.wake.second
    requires v.wake.first - s.lastResumed >= if t.read < t.write then t.read else t.write
    ensures Resumed(t, s, v) == (s, Ended)
  {
    LateEnds(t, s, v);
  }

  /** `m_last_resumed` never runs ahead of the clock. */
  lemma {:induction false} ServedClock(s: Session, inputs: seq<Input>)
    ensures Served(s, inputs).0.lastResumed == s.lastResumed
    decreases |inputs|
  {
    if inputs != [] && inputs[0].Request? {
      var step := Written(s.(responses := s.responses + [inputs[0].response]),
                          inputs[0].response, inputs[0].keepAlive, inputs[0].write);
      if step.Continue? {
        ServedClock(step.session, inputs[1..]);
      }
    }
  }

  lemma ResumedNotes(t: Timeouts, s: Session, v: Visit)
    requires !TimedOut(t, s.lastResumed, v.wake)
    ensures Resumed(t, s, v).0.lastResumed == v.wake.third
  {
    var s' := s.(lastResumed := v.wake.third);
    match s'.place {
      case Reading => ServedClock(s', v.inputs);
      case Sending(rest, keepAlive) =>
        var step := Written(s', rest, keepAlive, v.write);
        if step.Continue? {
          ServedClock(step.session, v.inputs);
        }
    }
  }

  lemma ResumedClock(t: Timeouts, s: Session, v: Visit)
    ensures Resumed(t, s, v).0.lastResumed == s.lastResumed || Resumed(t, s, v).0.lastResumed == v.wake.third
  {
    if !TimedOut(t, s.lastResumed, v.wake) {
      ResumedNotes(t, s, v);
    }
  }

  // ----- the handler object

  class ClientHandler {
    const timeouts: Timeouts
    var lastResumed: int
    var place: Place
    var sent: string
    var responses: seq<string>

    function State(): Session
      reads this
    {
      Session(lastResumed, place, sent, responses)
    }

    /** The constructor, or the stack of a suspended handler that is about to be resumed. */
    constructor (t: Timeouts, s: Session)
      ensures timeouts == t && State() == s
    {
      timeouts := t;
      lastResumed, place, sent, responses := s.lastResumed, s.place, s.sent, s.responses;
    }

    method IsTimedOut(w: Wake) returns (timedOut: bool)
      modifies this`lastResumed
      ensures timedOut == TimedOut(timeouts, old(lastResumed), w)
      ensures lastResumed == if timedOut then old(lastResumed) else w.third
    {
      if w.first - lastResumed >= timeouts.read || w.second - lastResumed >= timeouts.write {
        return true;
      }
      lastResumed := w.third;
      return false;
    }

    /** One write of `try_send_response`; `status` is that of a handler which does not go on. */
    method TryWrite(rest: string, keepAlive: bool, w: WriteResult) returns (goesOn: bool, status: Status)
      modifies this`place, this`sent
      ensures Written(old(State()), rest, keepAlive, w)
           == if goesOn then Continue(State()) else Stop(State(), status)
    {
      if w.WriteThrows? {
        return false, Raised;
      }
      var bytesWritten := if w.count < |rest| then w.count else |rest|;
      sent := sent + rest[..bytesWritten];
      if bytesWritten < |rest| {
        place := Sending(rest[bytesWritten..], keepAlive);
        return false, Suspended;
      }
      assert rest[..bytesWritten] == rest;
      place := Reading;
      return keepAlive, Ended;
    }

    /** The loop of `handle`. */
    method Handle(inputs: seq<Input>) returns (status: Status)
      modifies this
      ensures (State(), status) == Served(old(State()), inputs)
    {
      var i := 0;
      assert inputs[0..] == inputs;
      while i < |inputs|
        invariant i <= |inputs|
        invariant Served(State(), inputs[i..]) == Served(old(State()), inputs)
      {
        if inputs[i].RequestThrows? {
          return Raised;
        }
        responses := responses + [inputs[i].response];
        var goesOn, stopped := TryWrite(inputs[i].response, inputs[i].keepAlive, inputs[i].write);
        if !goesOn {
          return stopped;
        }
        assert inputs[i..][1..] == inputs[i + 1..];
        i := i + 1;
      }
      place := Reading;
      return Suspended;
    }

    /** What runs from one `yield` to the next. */
    method Resume(v: Visit) returns (status: Status)
      modifies this
      ensures (State(), status) == Resumed(timeouts, old(State()), v)
    {
      var timedOut := IsTimedOut(v.wake);
      if timedOut {
        return Ended;
      }
      if place.Sending? {
        var goesOn, stopped := TryWrite(place.rest, place.keepAlive, v.write);
        if !goesOn {
          return stopped;
        }
      }
      status := Handle(v.inputs);
    }
  }
}
