/** The operator's review session (scripts/latarnik_review.py): one letter at a time, and
    nothing sent but what was read and confirmed. */
module ReviewLoop {
  import opened Prelude

  const MAX_PER_SESSION := 25

  /** `Broken`: fetching the preview raises, or rendering it does. */
  datatype Preview = Refused | Letter(text: string) | Broken

  /** `Lost`: sending raises, whether or not the letter was queued. */
  datatype Reply = Queued | Declined | Lost

  /** What a session does, in order. `Unanswered`: a question raises. */
  datatype Event = Fetched(id: string, preview: Preview) | Shown(letter: string) | Asked(answer: string)
                 | Confirmed(answer: string) | Unanswered | Sent(id: string, reply: Reply)

  datatype Counts = Counts(sent: nat, skipped: nat, refused: nat)

  /** The server and the operator: previews and replies by row, answers by question, None
      where the question raises; `normal` strips an answer and puts it in lower case. */
  datatype World = World(preview: nat -> Preview, reply: nat -> Reply, answer: nat -> Option<string>, normal: string -> string)

  /** How a session ends; `Raised`: an exception leaves it. */
  datatype Outcome = BadLimit | Finished(counts: Counts) | Raised

  predicate Raises(e: Event) {
    e.Unanswered? || (e.Fetched? && e.preview.Broken?) || (e.Sent? && e.reply.Lost?)
  }

  // ---------------------------------------------------------------------------
  // What a trace tells

  /** A send directly behind "tak", behind "s", behind the letter, behind the preview it
      came from, all for the same person. */
  predicate Approved(w: World, trace: seq<Event>, i: nat)
    requires i < |trace| && trace[i].Sent?
  {
    && i >= 4
    && trace[i - 1].Confirmed? && w.normal(trace[i - 1].answer) == "tak"
    && trace[i - 2].Asked? && w.normal(trace[i - 2].answer) == "s"
    && trace[i - 3].Shown?
    && trace[i - 4] == Fetched(trace[i].id, Letter(trace[i - 3].letter))
  }

  ghost predicate OnlyApproved(w: World, trace: seq<Event>) {
    forall i: nat | i < |trace| && trace[i].Sent? :: Approved(w, trace, i)
  }

  function Tally(w: World, before: Counts, e: Event): Counts {
    match e
    case Fetched(_, preview) => if preview.Refused? then before.(refused := before.refused + 1) else before
    case Shown(_) => before
    case Asked(answer) =>
      if w.normal(answer) == "s" || w.normal(answer) == "q" then before else before.(skipped := before.skipped + 1)
    case Confirmed(answer) => if w.normal(answer) == "tak" then before else before.(skipped := before.skipped + 1)
    case Unanswered => before
    case Sent(_, reply) =>
      match reply
      case Queued => before.(sent := before.sent + 1)
      case Declined => before.(refused := before.refused + 1)
      case Lost => before
  }

  /** The counts a trace adds up to. */
  function CountsOf(w: World, trace: seq<Event>): Counts {
    if trace == [] then Counts(0, 0, 0) else Tally(w, CountsOf(w, trace[..|trace| - 1]), trace[|trace| - 1])
  }

  /** The letters shown, and the people whose preview was fetched. */
  function Letters(trace: seq<Event>): nat {
    if trace == [] then 0 else Letters(trace[..|trace| - 1]) + if trace[|trace| - 1].Shown? then 1 else 0
  }

  function Fetches(trace: seq<Event>): seq<string> {
    if trace == [] then []
    else
      var e := trace[|trace| - 1];
      Fetches(trace[..|trace| - 1]) + if e.Fetched? then [e.id] else []
  }

  function Sends(trace: seq<Event>): nat {
    if trace == [] then 0 else Sends(trace[..|trace| - 1]) + if trace[|trace| - 1].Sent? then 1 else 0
  }

  predicate Quit(w: World, trace: seq<Event>) {
    trace != [] && trace[|trace| - 1].Asked? && w.normal(trace[|trace| - 1].answer) == "q"
  }

  /** A person is done: refused, skipped, or written to. */
  predicate Over(w: World, e: Event) {
    match e
    case Fetched(_, preview) => preview.Refused?
    case Asked(answer) => w.normal(answer) != "q" && w.normal(answer) != "s"
    case Confirmed(answer) => w.normal(answer) != "tak"
    case Sent(_, reply) => !reply.Lost?
    case _ => false
  }

  /** What comes behind what: a letter that was fetched is shown, a letter shown is asked
      about, "s" leads to the second question and "tak" to the send; a person who is done
      leads to the next one's preview, and nothing comes behind "q" or an exception. */
  predicate MayFollow(w: World, e: Event, f: Event) {
    if e.Fetched? && e.preview.Letter? then f == Shown(e.preview.text)
    else if e.Shown? then f.Asked? || f.Unanswered?
    else if e.Asked? && w.normal(e.answer) == "s" then f.Confirmed? || f.Unanswered?
    else if e.Confirmed? && w.normal(e.answer) == "tak" then f.Sent?
    else Over(w, e) && f.Fetched?
  }

  /** Every event may follow the one in front of it, and the first is a preview. */
  ghost predicate Ordered(w: World, trace: seq<Event>) {
    && (trace != [] ==> trace[0].Fetched?)
    && forall i | 0 <= i < |trace| - 1 :: MayFollow(w, trace[i], trace[i + 1])
  }

  predicate Idle(w: World, trace: seq<Event>) { trace == [] || Over(w, trace[|trace| - 1]) }

  ghost predicate Undisturbed(trace: seq<Event>) { forall i | 0 <= i < |trace| :: !Raises(trace[i]) }

  /** Events and counts of a session so far. */
  ghost predicate Session(w: World, trace: seq<Event>, counts: Counts) {
    OnlyApproved(w, trace) && Ordered(w, trace) && Undisturbed(trace) && counts == CountsOf(w, trace)
  }

  /** A session that its last event, and no earlier one, has ended with an exception. */
  ghost predicate Broken(w: World, trace: seq<Event>) {
    && trace != [] && OnlyApproved(w, trace) && Ordered(w, trace)
    && Undisturbed(trace[..|trace| - 1]) && Raises(trace[|trace| - 1])
  }

  datatype Next = GoOn | Stop | Raise

  ghost predicate Stands(w: World, trace: seq<Event>, counts: Counts, next: Next) {
    match next
    case GoOn => Session(w, trace, counts) && Idle(w, trace)
    case Stop => Session(w, trace, counts) && Quit(w, trace)
    case Raise => Broken(w, trace)
  }

  lemma ApprovedInLonger(w: World, trace: seq<Event>, e: Event, i: nat)
    requires i < |trace| && trace[i].Sent? && Approved(w, trace, i)
    ensures (trace + [e])[i].Sent? && Approved(w, trace + [e], i)
  {
    var t := trace + [e];
    assert forall j | 0 <= j < |trace| :: t[j] == trace[j];
  }

  lemma ExtendApproved(w: World, trace: seq<Event>, e: Event)
    requires OnlyApproved(w, trace) && (e.Sent? ==> Approved(w, trace + [e], |trace|))
    ensures OnlyApproved(w, trace + [e])
  {
    forall i: nat | i <= |trace| && (trace + [e])[i].Sent? ensures Approved(w, trace + [e], i) {
      if i < |trace| { ApprovedInLonger(w, trace, e, i); }
    }
  }

  lemma ExtendOrdered(w: World, trace: seq<Event>, e: Event)
    requires Ordered(w, trace) && if trace == [] then e.Fetched? else MayFollow(w, trace[|trace| - 1], e)
    ensures Ordered(w, trace + [e])
  {
    var t := trace + [e];
    forall i | 0 <= i < |t| - 1 ensures MayFollow(w, t[i], t[i + 1]) {
      if i + 1 < |trace| { assert MayFollow(w, trace[i], trace[i + 1]); }
    }
  }

  lemma ExtendTally(w: World, trace: seq<Event>, e: Event)
    ensures var t := trace + [e];
            && t[..|t| - 1] == trace && t[|t| - 1] == e && CountsOf(w, t) == Tally(w, CountsOf(w, trace), e)
            && Letters(t) == Letters(trace) + (if e.Shown? then 1 else 0)
            && Fetches(t) == Fetches(trace) + (if e.Fetched? then [e.id] else [])
            && (Undisturbed(trace) && !Raises(e) ==> Undisturbed(t))
  {
    assert (trace + [e])[..|trace|] == trace;
  }

  /** One more event. */
  lemma Extend(w: World, trace: seq<Event>, counts: Counts, e: Event)
    requires Session(w, trace, counts) && (e.Sent? ==> Approved(w, trace + [e], |trace|))
    requires if trace == [] then e.Fetched? else MayFollow(w, trace[|trace| - 1], e)
    ensures var t := trace + [e];
            && (if Raises(e) then Broken(w, t) else Session(w, t, Tally(w, counts, e)))
            && Letters(t) == Letters(trace) + (if e.Shown? then 1 else 0)
            && Fetches(t) == Fetches(trace) + (if e.Fetched? then [e.id] else [])
  {
    ExtendApproved(w, trace, e);
    ExtendOrdered(w, trace, e);
    ExtendTally(w, trace, e);
  }

  // ---------------------------------------------------------------------------
  // The code

  /** Both questions, behind a letter shown, and the send behind both answers. */
  method Decide(w: World, trace: seq<Event>, counts: Counts, id: string, index: nat, asked: nat)
    returns (newTrace: seq<Event>, newCounts: Counts, nowAsked: nat, next: Next)
    requires Session(w, trace, counts) && |trace| >= 2 && trace[|trace| - 1].Shown?
    requires trace[|trace| - 2] == Fetched(id, Letter(trace[|trace| - 1].letter))
    ensures Stands(w, newTrace, newCounts, next)
    ensures Fetches(newTrace) == Fetches(trace) && Letters(newTrace) == Letters(trace)
  {
    newTrace, newCounts, nowAsked, next := trace, counts, asked + 1, GoOn;
    var answer := w.answer(asked);
    if answer.None? {
      Extend(w, trace, counts, Unanswered);
      return trace + [Unanswered], counts, nowAsked, Raise;
    }
    Extend(w, trace, counts, Asked(answer.value));
    newTrace := trace + [Asked(answer.value)];
    if w.normal(answer.value) == "q" { return newTrace, counts, nowAsked, Stop; }
    if w.normal(answer.value) != "s" {
      return newTrace, counts.(skipped := counts.skipped + 1), nowAsked, GoOn;
    }
    newTrace, newCounts, next := Confirm(w, newTrace, counts, id, index, asked + 1);
    nowAsked := asked + 2;
  }

  /** The person's letter was shown, and both questions were answered. */
  predicate ToBeSent(w: World, trace: seq<Event>, id: string) {
    && |trace| >= 4 && trace[|trace| - 1].Confirmed? && w.normal(trace[|trace| - 1].answer) == "tak"
    && trace[|trace| - 2].Asked? && w.normal(trace[|trace| - 2].answer) == "s" && trace[|trace| - 3].Shown?
    && trace[|trace| - 4] == Fetched(id, Letter(trace[|trace| - 3].letter))
  }

  lemma SendIsApproved(w: World, trace: seq<Event>, id: string, reply: Reply)
    requires ToBeSent(w, trace, id)
    ensures Approved(w, trace + [Sent(id, reply)], |trace|)
  {
  }

  /** The second question, and the send. */
  method Confirm(w: World, trace: seq<Event>, counts: Counts, id: string, index: nat, asked: nat)
    returns (newTrace: seq<Event>, newCounts: Counts, next: Next)
    requires Session(w, trace, counts) && |trace| >= 3
    requires trace[|trace| - 1].Asked? && w.normal(trace[|trace| - 1].answer) == "s" && trace[|trace| - 2].Shown?
    requires trace[|trace| - 3] == Fetched(id, Letter(trace[|trace| - 2].letter))
    ensures Stands(w, newTrace, newCounts, next) && !next.Stop?
    ensures Fetches(newTrace) == Fetches(trace) && Letters(newTrace) == Letters(trace)
  {
    var confirm := w.answer(asked);
    if confirm.None? {
      Extend(w, trace, counts, Unanswered);
      return trace + [Unanswered], counts, Raise;
    }
    Extend(w, trace, counts, Confirmed(confirm.value));
    newTrace := trace + [Confirmed(confirm.value)];
    if w.normal(confirm.value) != "tak" {
      return newTrace, counts.(skipped := counts.skipped + 1), GoOn;
    }
    newTrace, newCounts, next := Deliver(w, newTrace, counts, id, index);
  }

  /** The send. */
  method Deliver(w: World, trace: seq<Event>, counts: Counts, id: string, index: nat)
    returns (newTrace: seq<Event>, newCounts: Counts, next: Next)
    requires Session(w, trace, counts) && ToBeSent(w, trace, id)
    ensures Stands(w, newTrace, newCounts, next) && !next.Stop?
    ensures Fetches(newTrace) == Fetches(trace) && Letters(newTrace) == Letters(trace)
  {
    var reply := w.reply(index);
    SendIsApproved(w, trace, id, reply);
    Extend(w, trace, counts, Sent(id, reply));
    newTrace, newCounts, next := trace + [Sent(id, reply)], counts, GoOn;
    match reply
    case Queued => newCounts := counts.(sent := counts.sent + 1);
    case Declined => newCounts := counts.(refused := counts.refused + 1);
    case Lost => next := Raise;
  }

  /** The body of the loop for one person. */
  method ReviewOne(w: World, trace: seq<Event>, counts: Counts, id: string, index: nat, asked: nat)
    returns (newTrace: seq<Event>, newCounts: Counts, nowAsked: nat, next: Next)
    requires Session(w, trace, counts) && Idle(w, trace)
    ensures Stands(w, newTrace, newCounts, next)
    ensures Fetches(newTrace) == Fetches(trace) + [id]
    ensures Letters(newTrace) == Letters(trace) + if w.preview(index).Letter? then 1 else 0
  {
    newCounts, nowAsked, next := counts, asked, GoOn;
    var preview := w.preview(index);
    newTrace := trace + [Fetched(id, preview)];
    if preview.Letter? {
      LetterShown(w, trace, counts, id, preview.text);
      newTrace := newTrace + [Shown(preview.text)];
      newTrace, newCounts, nowAsked, next := Decide(w, newTrace, counts, id, index, asked);
    } else {
      Extend(w, trace, counts, Fetched(id, preview));
      if preview.Broken? { next := Raise; } else { newCounts := counts.(refused := counts.refused + 1); }
    }
  }

  /** The letter behind its preview. */
  lemma LetterShown(w: World, trace: seq<Event>, counts: Counts, id: string, text: string)
    requires Session(w, trace, counts) && Idle(w, trace)
    ensures var t := trace + [Fetched(id, Letter(text))] + [Shown(text)];
            && Session(w, t, counts) && |t| >= 2 && t[|t| - 1] == Shown(text) && t[|t| - 2] == Fetched(id, Letter(text))
            && Fetches(t) == Fetches(trace) + [id] && Letters(t) == Letters(trace) + 1
  {
    var before := trace + [Fetched(id, Letter(text))];
    Extend(w, trace, counts, Fetched(id, Letter(text)));
    Extend(w, before, counts, Shown(text));
  }

  /** A session over the people in order. However it ends, every send was approved for that
      person, every event follows the one in front of it as it may, and no more than `limit`
      letters were shown. Without an exception the counts add up, and it ends only at the end
      of the list, at the limit, or when told to. */
  method ReviewLoop(w: World, ids: seq<string>, limit: int) returns (outcome: Outcome, trace: seq<Event>)
    ensures outcome.BadLimit? <==> !(1 <= limit <= 25)
    ensures outcome.BadLimit? ==> trace == []
    ensures OnlyApproved(w, trace) && Ordered(w, trace) && Fetches(trace) <= ids
    ensures !outcome.BadLimit? ==> Letters(trace) <= limit
    ensures outcome.Finished? ==> Session(w, trace, outcome.counts) && (Idle(w, trace) || Quit(w, trace))
    ensures outcome.Finished? ==> Fetches(trace) == ids || Letters(trace) == limit || Quit(w, trace)
    ensures outcome.Raised? ==> Broken(w, trace)
  {
    trace := [];
    if !(1 <= limit <= MAX_PER_SESSION) { return BadLimit, []; }
    var counts, shown, asked, n := Counts(0, 0, 0), 0, 0, 0;
    while n < |ids| && shown < limit
      invariant n <= |ids| && Fetches(trace) == ids[..n] && Session(w, trace, counts) && Idle(w, trace)
      invariant shown == Letters(trace) <= limit
    {
      var next;
      trace, counts, asked, next := ReviewOne(w, trace, counts, ids[n], n, asked);
      if w.preview(n).Letter? { shown := shown + 1; }
      n := n + 1;
      if next.Raise? { return Raised, trace; }
      if next.Stop? { return Finished(counts), trace; }
    }
    return Finished(counts), trace;
  }

  /** Whatever the session: behind "tak" comes the send, to the person whose letter it was. */
  lemma ConfirmedIsSent(w: World, trace: seq<Event>, i: nat)
    requires OnlyApproved(w, trace) && Ordered(w, trace) && (Idle(w, trace) || Quit(w, trace) || Broken(w, trace))
    requires i < |trace| && trace[i].Confirmed? && w.normal(trace[i].answer) == "tak"
    ensures i >= 3 && i + 1 < |trace| && trace[i + 1].Sent? && trace[i - 3].Fetched? && trace[i - 3].id == trace[i + 1].id
  {
    assert !Over(w, trace[i]) && !Raises(trace[i]);
    assert i < |trace| - 1;
    assert MayFollow(w, trace[i], trace[i + 1]);
    assert Approved(w, trace, i + 1);
  }

  /** Every approved send had its own letter: no more sends than letters shown. */
  lemma {:induction false} NoSendWithoutLetter(w: World, trace: seq<Event>)
    requires OnlyApproved(w, trace)
    ensures Sends(trace) <= Letters(trace)
    decreases |trace|
  {
    if trace != [] {
      var n := |trace| - 1;
      if trace[n].Sent? {
        assert Approved(w, trace, n);
        NoSendWithoutLetter(w, PrefixOf(w, trace, n - 4));
        DropQuiet(trace, n);
      } else {
        NoSendWithoutLetter(w, PrefixOf(w, trace, n));
        assert trace[..n] == PrefixOf(w, trace, n);
      }
    }
  }

  function PrefixOf(w: World, trace: seq<Event>, n: nat): (t: seq<Event>)
    requires n <= |trace| && OnlyApproved(w, trace)
    ensures t == trace[..n] && OnlyApproved(w, t)
  {
    assert forall i: nat | i < n && trace[i].Sent? :: Approved(w, trace, i);
    trace[..n]
  }

  /** Over an approved send: one send, and at least one letter. */
  lemma DropQuiet(trace: seq<Event>, n: nat)
    requires n + 1 == |trace| && n >= 4
    requires trace[n].Sent? && trace[n - 1].Confirmed? && trace[n - 2].Asked? && trace[n - 3].Shown? && trace[n - 4].Fetched?
    ensures Sends(trace) == Sends(trace[..n - 4]) + 1 && Letters(trace) == Letters(trace[..n - 4]) + 1
  {
    assert trace[..n][..n - 1] == trace[..n - 1] && trace[..n - 1][..n - 2] == trace[..n - 2];
    assert trace[..n - 2][..n - 3] == trace[..n - 3] && trace[..n - 3][..n - 4] == trace[..n - 4];
    assert Sends(trace[..n - 1]) == Sends(trace[..n - 2]) == Sends(trace[..n - 3]) == Sends(trace[..n - 4]);
    assert Letters(trace[..n]) == Letters(trace[..n - 1]) == Letters(trace[..n - 2]);
    assert Letters(trace[..n - 2]) == Letters(trace[..n - 3]) + 1;
  }
}
