/** The reminder dispatch and cleanup passes of
    internal/reminder/scheduler.go over the in-memory store. Each clock read
    is a parameter; the LINE push is a Notifier whose outcome is arbitrary. */
module ReminderScheduler {
  import opened Common
  import opened Clock
  import opened Store

  // ---------------------------------------------------------------------
  // The notification text
  // ---------------------------------------------------------------------

  /** The two wordings of the reminder text: "arriving now" and "arriving in
      N minutes". */
  datatype Message = ArrivingNow(stopName: string) | Countdown(minutes: int, stopName: string)

  /** Go's integer conversion of a quotient: truncation toward zero. */
  function TruncDiv(a: int, b: int): (q: int)
    requires b > 0
    ensures a >= 0 ==> q * b <= a < (q + 1) * b
    ensures a < 0 ==> (q - 1) * b < a <= q * b
  {
    if a >= 0 then a / b else -((-a) / b)
  }

  /** The text sendReminderNotification pushes: the whole minutes until the
      ETA, truncated, decide the wording. */
  function MessageFor(r: Reminder, now: int): (m: Message)
    ensures m.stopName == r.stopName
    ensures m.ArrivingNow? <==> r.eta - now < Minute
    ensures m.Countdown? ==> 1 <= m.minutes && m.minutes * Minute <= r.eta - now < (m.minutes + 1) * Minute
  {
    var minutes := TruncDiv(r.eta - now, Minute);
    if minutes <= 0 then ArrivingNow(r.stopName) else Countdown(minutes, r.stopName)
  }

  /** One push attempt to a LINE user, and whether the API accepted it. */
  datatype Push = Push(to: string, message: Message, delivered: bool)

  /** The LINE messaging API, as the log of every push attempted. */
  class Notifier {
    var pushed: seq<Push>

    constructor ()
      ensures pushed == []
    {
      pushed := [];
    }

    /** PushMessage: the outcome is the API's. */
    method PushMessage(to: string, message: Message) returns (ok: bool)
      modifies this
      ensures pushed == old(pushed) + [Push(to, message, ok)]
    {
      ok :| true;
      pushed := pushed + [Push(to, message, ok)];
    }
  }

  // ---------------------------------------------------------------------
  // The decision for one reminder and what a pass does
  // ---------------------------------------------------------------------

  datatype Decision = TooEarly | Expire | Send

  /** The instant the user asked to be told: AdvanceMinutes before the ETA. */
  function NotifyAt(r: Reminder): int
  {
    r.eta - r.advanceMinutes * Minute
  }

  /** processReminder's three-way choice. */
  function Decide(r: Reminder, now: int): Decision
  {
    if now < NotifyAt(r) then TooEarly
    else if now > r.eta then Expire
    else Send
  }

  /** What processing one reminder did: nothing; an "expired" write (and
      whether it took); a failed push; or a delivered push followed by a
      "sent" write (and whether that took). */
  datatype Outcome = NotDue | MarkedExpired(written: bool) | SendFailed | Delivered(written: bool)

  /** The outcomes the dispatch decision allows. */
  predicate Fits(r: Reminder, now: int, o: Outcome)
  {
    match Decide(r, now)
    case TooEarly => o == NotDue
    case Expire => o.MarkedExpired?
    case Send => o.SendFailed? || o.Delivered?
  }

  /** processReminder returns an error exactly for a failed push and for a
      failed "sent" write; a failed "expired" write is only logged. */
  predicate IsError(o: Outcome)
  {
    o.SendFailed? || o == Delivered(false)
  }

  /** The status an outcome wrote, if any. */
  function Written(o: Outcome): Option<Status>
  {
    match o
    case MarkedExpired(true) => Some(Expired)
    case Delivered(true) => Some(Sent)
    case _ => None
  }

  /** A reminder document after an outcome for it: the status written, if
      any, with updatedAt refreshed. */
  function Apply(d: Reminder, now: int, o: Outcome): Reminder
  {
    match Written(o)
    case Some(s) => d.(status := s, updatedAt := now)
    case None => d
  }

  /** The reminder documents after one outcome for r; a missing document
      stays missing, as the status write fails. */
  function AfterOutcome(docs: map<string, Reminder>, r: Reminder, now: int, o: Outcome): map<string, Reminder>
  {
    if r.id in docs then docs[r.id := Apply(docs[r.id], now, o)] else docs
  }

  /** The reminder documents after the outcomes `os` for `rs`, in order. */
  function AfterPass(docs: map<string, Reminder>, rs: seq<Reminder>, now: int, os: seq<Outcome>): map<string, Reminder>
    requires |rs| == |os|
  {
    if |rs| == 0 then docs
    else
      var k := |rs| - 1;
      AfterOutcome(AfterPass(docs, rs[..k], now, os[..k]), rs[k], now, os[k])
  }

  /** The push one outcome attempted, if any. */
  function AttemptOf(r: Reminder, now: int, o: Outcome): seq<Push>
  {
    match o
    case SendFailed => [Push(r.userId, MessageFor(r, now), false)]
    case Delivered(_) => [Push(r.userId, MessageFor(r, now), true)]
    case _ => []
  }

  function AttemptsOf(rs: seq<Reminder>, now: int, os: seq<Outcome>): seq<Push>
    requires |rs| == |os|
  {
    if |rs| == 0 then []
    else
      var k := |rs| - 1;
      AttemptsOf(rs[..k], now, os[..k]) + AttemptOf(rs[k], now, os[k])
  }

  /** The reminders of `rs` that are due for a push at `now`, in order. */
  function Due(rs: seq<Reminder>, now: int): seq<Reminder>
  {
    if |rs| == 0 then []
    else
      var k := |rs| - 1;
      Due(rs[..k], now) + (if Decide(rs[k], now) == Send then [rs[k]] else [])
  }

  /** One more reminder processed extends a pass by its outcome. */
  lemma PassStep(docs: map<string, Reminder>, rs: seq<Reminder>, i: int, now: int, os: seq<Outcome>, o: Outcome)
    requires 0 <= i < |rs| && |os| == i
    ensures AfterPass(docs, rs[..i + 1], now, os + [o]) == AfterOutcome(AfterPass(docs, rs[..i], now, os), rs[i], now, o)
    ensures AttemptsOf(rs[..i + 1], now, os + [o]) == AttemptsOf(rs[..i], now, os) + AttemptOf(rs[i], now, o)
  {
    assert rs[..i + 1][..i] == rs[..i];
    assert (os + [o])[..i] == os;
  }

  lemma FitsStep(rs: seq<Reminder>, i: int, now: int, os: seq<Outcome>, o: Outcome)
    requires 0 <= i < |rs| && |os| == i
    requires forall j :: 0 <= j < i ==> Fits(rs[j], now, os[j])
    requires Fits(rs[i], now, o)
    ensures forall j :: 0 <= j <= i ==> Fits(rs[j], now, (os + [o])[j])
  {
  }

  /** The cleanup pass writes "expired" exactly for reminders whose ETA is
      before the cutoff and leaves the others alone. */
  predicate CleanupFits(r: Reminder, cutoff: int, o: Outcome)
  {
    if r.eta < cutoff then o.MarkedExpired? else o == NotDue
  }

  lemma CleanupFitsStep(rs: seq<Reminder>, i: int, cutoff: int, os: seq<Outcome>, o: Outcome)
    requires 0 <= i < |rs| && |os| == i
    requires forall j :: 0 <= j < i ==> CleanupFits(rs[j], cutoff, os[j])
    requires CleanupFits(rs[i], cutoff, o)
    ensures forall j :: 0 <= j <= i ==> CleanupFits(rs[j], cutoff, (os + [o])[j])
  {
  }

  // ---------------------------------------------------------------------
  // Properties of a pass
  // ---------------------------------------------------------------------

  predicate DistinctIds(rs: seq<Reminder>)
  {
    forall i, j :: 0 <= i < j < |rs| ==> rs[i].id != rs[j].id
  }

  /** The query over distinct document ids yields reminders with distinct ids. */
  lemma {:induction false} FetchedDistinct(ids: seq<string>, docs: map<string, Reminder>, undecodable: set<string>, f: EtaFilter)
    requires Distinct(ids)
    ensures DistinctIds(ActiveAmong(ids, docs, undecodable, f))
  {
    if |ids| > 0 {
      var k := |ids| - 1;
      var init := ids[..k];
      FetchedDistinct(init, docs, undecodable, f);
      var prev := ActiveAmong(init, docs, undecodable, f);
      forall i | 0 <= i < |prev|
        ensures prev[i].id != ids[k]
      {
        ActiveAmongMembers(init, docs, undecodable, f, prev[i]);
      }
    }
  }

  /** Each fetched reminder is its active, decodable document with the id
      filled in, and every such document in `ids` is fetched. */
  lemma {:induction false} FetchedAreFetchable(ids: seq<string>, docs: map<string, Reminder>, undecodable: set<string>, f: EtaFilter)
    ensures forall r :: r in ActiveAmong(ids, docs, undecodable, f) ==>
      Fetchable(docs, undecodable, f, r.id) && r == docs[r.id].(id := r.id)
    ensures forall id :: id in ids && Fetchable(docs, undecodable, f, id) ==>
      docs[id].(id := id) in ActiveAmong(ids, docs, undecodable, f)
  {
    forall r | r in ActiveAmong(ids, docs, undecodable, f)
      ensures Fetchable(docs, undecodable, f, r.id) && r == docs[r.id].(id := r.id)
    {
      ActiveAmongMembers(ids, docs, undecodable, f, r);
    }
    forall id | id in ids && Fetchable(docs, undecodable, f, id)
      ensures docs[id].(id := id) in ActiveAmong(ids, docs, undecodable, f)
    {
      ActiveAmongMembers(ids, docs, undecodable, f, docs[id].(id := id));
    }
  }

  /** Over reminders with distinct ids, a pass leaves each processed
      document as its own outcome made it, and every other one as it was. */
  lemma {:induction false} PassExact(docs: map<string, Reminder>, rs: seq<Reminder>, now: int, os: seq<Outcome>)
    requires |rs| == |os| && DistinctIds(rs)
    ensures AfterPass(docs, rs, now, os).Keys == docs.Keys
    ensures forall i :: 0 <= i < |rs| && rs[i].id in docs ==>
      AfterPass(docs, rs, now, os)[rs[i].id] == Apply(docs[rs[i].id], now, os[i])
    ensures forall id :: id in docs && (forall i :: 0 <= i < |rs| ==> rs[i].id != id) ==>
      AfterPass(docs, rs, now, os)[id] == docs[id]
  {
    if |rs| > 0 {
      var k := |rs| - 1;
      var prev := AfterPass(docs, rs[..k], now, os[..k]);
      assert AfterPass(docs, rs, now, os) == AfterOutcome(prev, rs[k], now, os[k]);
      PassExact(docs, rs[..k], now, os[..k]);
      assert forall i :: 0 <= i < k ==> rs[..k][i] == rs[i] && os[..k][i] == os[i] && rs[i].id != rs[k].id;
    }
  }

  /** A dispatch pass leaves alone every document it did not fetch: those
      not active, not decodable, or with ETA at or before `fetchNow`. */
  lemma DispatchLeavesUnfetched(order: seq<string>, docs: map<string, Reminder>, undecodable: set<string>,
                                fetchNow: int, evalNow: int, os: seq<Outcome>)
    requires Distinct(order)
    requires |os| == |ActiveAmong(order, docs, undecodable, After(fetchNow))|
    ensures var after := AfterPass(docs, ActiveAmong(order, docs, undecodable, After(fetchNow)), evalNow, os);
      && after.Keys == docs.Keys
      && forall id :: id in docs && !Fetchable(docs, undecodable, After(fetchNow), id) ==> after[id] == docs[id]
  {
    var fetched := ActiveAmong(order, docs, undecodable, After(fetchNow));
    FetchedDistinct(order, docs, undecodable, After(fetchNow));
    FetchedAreFetchable(order, docs, undecodable, After(fetchNow));
    PassExact(docs, fetched, evalNow, os);
    forall id | id in docs && !Fetchable(docs, undecodable, After(fetchNow), id)
      ensures forall i :: 0 <= i < |fetched| ==> fetched[i].id != id
    {
      forall i | 0 <= i < |fetched| ensures fetched[i].id != id {
        assert fetched[i] in fetched;
      }
    }
  }

  /** What a dispatch pass does to each fetched reminder, which was active:
      one too early is left as it was; one whose ETA has passed is marked
      "expired" if the write took, and that happens only when
      fetchNow < ETA < evalNow; one that is due becomes "sent" exactly when
      its push was delivered and the write took. */
  lemma DispatchTransitions(order: seq<string>, docs: map<string, Reminder>, undecodable: set<string>,
                            fetchNow: int, evalNow: int, os: seq<Outcome>)
    requires Distinct(order)
    requires |os| == |ActiveAmong(order, docs, undecodable, After(fetchNow))|
    requires forall i :: 0 <= i < |os| ==> Fits(ActiveAmong(order, docs, undecodable, After(fetchNow))[i], evalNow, os[i])
    ensures var fetched := ActiveAmong(order, docs, undecodable, After(fetchNow));
      var after := AfterPass(docs, fetched, evalNow, os);
      && after.Keys == docs.Keys
      && (forall i :: 0 <= i < |fetched| ==> fetched[i].id in docs && docs[fetched[i].id].status == Active)
      && (forall i :: 0 <= i < |fetched| && Decide(fetched[i], evalNow) == TooEarly ==>
            after[fetched[i].id] == docs[fetched[i].id])
      && (forall i :: 0 <= i < |fetched| && Decide(fetched[i], evalNow) == Expire ==>
            fetchNow < fetched[i].eta < evalNow
            && after[fetched[i].id] == (if os[i] == MarkedExpired(true) then docs[fetched[i].id].(status := Expired, updatedAt := evalNow)
                                        else docs[fetched[i].id]))
      && (forall i :: 0 <= i < |fetched| && Decide(fetched[i], evalNow) == Send ==>
            after[fetched[i].id] == (if os[i] == Delivered(true) then docs[fetched[i].id].(status := Sent, updatedAt := evalNow)
                                     else docs[fetched[i].id]))
  {
    var fetched := ActiveAmong(order, docs, undecodable, After(fetchNow));
    FetchedDistinct(order, docs, undecodable, After(fetchNow));
    FetchedAreFetchable(order, docs, undecodable, After(fetchNow));
    PassExact(docs, fetched, evalNow, os);
    var after := AfterPass(docs, fetched, evalNow, os);
    forall i | 0 <= i < |fetched|
      ensures fetched[i].id in docs && docs[fetched[i].id].status == Active
      ensures Decide(fetched[i], evalNow) == TooEarly ==> after[fetched[i].id] == docs[fetched[i].id]
      ensures Decide(fetched[i], evalNow) == Expire ==>
        fetchNow < fetched[i].eta < evalNow
        && after[fetched[i].id] == (if os[i] == MarkedExpired(true) then docs[fetched[i].id].(status := Expired, updatedAt := evalNow)
                                    else docs[fetched[i].id])
      ensures Decide(fetched[i], evalNow) == Send ==>
        after[fetched[i].id] == (if os[i] == Delivered(true) then docs[fetched[i].id].(status := Sent, updatedAt := evalNow)
                                 else docs[fetched[i].id])
    {
      assert fetched[i] in fetched;
      ApplyByDecision(fetched[i], docs[fetched[i].id], evalNow, os[i]);
    }
  }

  /** The document an allowed outcome leaves, by decision. */
  lemma ApplyByDecision(r: Reminder, d: Reminder, now: int, o: Outcome)
    requires Fits(r, now, o)
    ensures Decide(r, now) == TooEarly ==> Apply(d, now, o) == d
    ensures Decide(r, now) == Expire ==>
      Apply(d, now, o) == if o == MarkedExpired(true) then d.(status := Expired, updatedAt := now) else d
    ensures Decide(r, now) == Send ==>
      Apply(d, now, o) == if o == Delivered(true) then d.(status := Sent, updatedAt := now) else d
  {
  }

  /** "sent" is written only after a delivered push: for every outcome that
      wrote "sent", the pass's push log holds the delivered push of that
      reminder's message to its user. */
  lemma {:induction false} SentFollowsDeliveredPush(rs: seq<Reminder>, now: int, os: seq<Outcome>)
    requires |rs| == |os|
    ensures forall i :: 0 <= i < |rs| && Written(os[i]) == Some(Sent) ==>
      Push(rs[i].userId, MessageFor(rs[i], now), true) in AttemptsOf(rs, now, os)
  {
    forall i | 0 <= i < |rs| && Written(os[i]) == Some(Sent)
      ensures Push(rs[i].userId, MessageFor(rs[i], now), true) in AttemptsOf(rs, now, os)
    {
      AttemptsOfContains(rs, now, os, i);
    }
  }

  /** Every push the outcome for rs[i] attempted is in the pass's push log. */
  lemma {:induction false} AttemptsOfContains(rs: seq<Reminder>, now: int, os: seq<Outcome>, i: int)
    requires |rs| == |os| && 0 <= i < |rs|
    ensures forall p :: p in AttemptOf(rs[i], now, os[i]) ==> p in AttemptsOf(rs, now, os)
  {
    var k := |rs| - 1;
    if i < k {
      AttemptsOfContains(rs[..k], now, os[..k], i);
      assert rs[..k][i] == rs[i] && os[..k][i] == os[i];
    }
  }

  /** The pushes of a dispatch pass are exactly one per due reminder, in
      fetch order: the k-th push goes to the k-th due reminder's user with
      that reminder's message; reminders not due get none. */
  lemma {:induction false} AttemptsFollowDue(rs: seq<Reminder>, now: int, os: seq<Outcome>)
    requires |rs| == |os|
    requires forall i :: 0 <= i < |rs| ==> Fits(rs[i], now, os[i])
    ensures |AttemptsOf(rs, now, os)| == |Due(rs, now)|
    ensures forall k :: 0 <= k < |Due(rs, now)| ==>
      AttemptsOf(rs, now, os)[k].to == Due(rs, now)[k].userId
      && AttemptsOf(rs, now, os)[k].message == MessageFor(Due(rs, now)[k], now)
  {
    if |rs| > 0 {
      var n := |rs| - 1;
      assert forall i :: 0 <= i < n ==> rs[..n][i] == rs[i] && os[..n][i] == os[i];
      AttemptsFollowDue(rs[..n], now, os[..n]);
    }
  }

  /** A reminder is due exactly when it is among those processed and the
      decision at `now` is to send. */
  lemma {:induction false} DueMembers(rs: seq<Reminder>, now: int, r: Reminder)
    ensures r in Due(rs, now) <==> r in rs && Decide(r, now) == Send
  {
    if |rs| > 0 {
      var n := |rs| - 1;
      DueMembers(rs[..n], now, r);
      assert rs == rs[..n] + [rs[n]];
    }
  }

  /** Once a reminder is marked "sent", no later pass fetches it again, so
      it is never pushed twice. */
  lemma {:induction false} NoResendOnceSent(order: seq<string>, docs: map<string, Reminder>, undecodable: set<string>, id: string, t: int)
    requires id in docs && docs[id].status == Sent
    ensures forall r :: r in ActiveAmong(order, docs, undecodable, After(t)) ==> r.id != id
  {
    FetchedAreFetchable(order, docs, undecodable, After(t));
  }

  /** A pass in which no outcome wrote anything leaves the documents as
      they were. */
  lemma {:induction false} NoWritesNoChange(docs: map<string, Reminder>, rs: seq<Reminder>, now: int, os: seq<Outcome>)
    requires |rs| == |os|
    requires forall i :: 0 <= i < |os| ==> Written(os[i]).None?
    ensures AfterPass(docs, rs, now, os) == docs
  {
    if |rs| > 0 {
      var n := |rs| - 1;
      assert forall i :: 0 <= i < n ==> os[..n][i] == os[i];
      NoWritesNoChange(docs, rs[..n], now, os[..n]);
    }
  }

  /** The cleanup pass as written never expires a reminder: every fetched
      reminder has ETA after the cutoff, so the pass writes nothing. */
  lemma CleanupNeverExpires(order: seq<string>, docs: map<string, Reminder>, undecodable: set<string>, now: int, os: seq<Outcome>)
    requires |os| == |ActiveAmong(order, docs, undecodable, After(now - Day))|
    requires forall i :: 0 <= i < |os| ==> CleanupFits(ActiveAmong(order, docs, undecodable, After(now - Day))[i], now - Day, os[i])
    ensures AfterPass(docs, ActiveAmong(order, docs, undecodable, After(now - Day)), now, os) == docs
  {
    var fetched := ActiveAmong(order, docs, undecodable, After(now - Day));
    FetchedAreFetchable(order, docs, undecodable, After(now - Day));
    forall i | 0 <= i < |os| ensures Written(os[i]).None? {
      assert fetched[i] in fetched;
    }
    NoWritesNoChange(docs, fetched, now, os);
  }

  /** The corrected cleanup pass: every active, decodable reminder whose ETA
      is more than 24 hours before `now` gets one "expired" write, which
      marks it expired when it takes; every other document is unchanged. */
  lemma CleanupFixedExpiresStale(order: seq<string>, docs: map<string, Reminder>, undecodable: set<string>, now: int, os: seq<Outcome>)
    requires Distinct(order)
    requires |os| == |ActiveAmong(order, docs, undecodable, Before(now - Day))|
    requires forall i :: 0 <= i < |os| ==> CleanupFits(ActiveAmong(order, docs, undecodable, Before(now - Day))[i], now - Day, os[i])
    ensures var fetched := ActiveAmong(order, docs, undecodable, Before(now - Day));
      var after := AfterPass(docs, fetched, now, os);
      && after.Keys == docs.Keys
      && (forall id :: id in order && Fetchable(docs, undecodable, Before(now - Day), id) ==> docs[id].(id := id) in fetched)
      && (forall i :: 0 <= i < |fetched| ==> fetched[i].id in docs)
      && (forall i :: 0 <= i < |fetched| ==>
            os[i].MarkedExpired?
            && after[fetched[i].id] == (if os[i] == MarkedExpired(true) then docs[fetched[i].id].(status := Expired, updatedAt := now)
                                        else docs[fetched[i].id]))
      && (forall id :: id in docs && !Fetchable(docs, undecodable, Before(now - Day), id) ==> after[id] == docs[id])
  {
    var fetched := ActiveAmong(order, docs, undecodable, Before(now - Day));
    FetchedDistinct(order, docs, undecodable, Before(now - Day));
    FetchedAreFetchable(order, docs, undecodable, Before(now - Day));
    PassExact(docs, fetched, now, os);
    forall i | 0 <= i < |fetched|
      ensures fetched[i].id in docs && fetched[i].eta < now - Day
    {
      assert fetched[i] in fetched;
    }
    forall id | id in docs && !Fetchable(docs, undecodable, Before(now - Day), id)
      ensures forall i :: 0 <= i < |fetched| ==> fetched[i].id != id
    {
      forall i | 0 <= i < |fetched| ensures fetched[i].id != id {
        assert fetched[i] in fetched;
      }
    }
  }

  // ---------------------------------------------------------------------
  // The scheduler
  // ---------------------------------------------------------------------

  class Scheduler {
    const store: FirestoreClient
    const notifier: Notifier

    constructor (store: FirestoreClient, notifier: Notifier)
      ensures this.store == store && this.notifier == notifier
    {
      this.store := store;
      this.notifier := notifier;
    }

    /** sendReminderNotification: one push of the message for r to its user. */
    method SendReminderNotification(r: Reminder, now: int) returns (ok: bool)
      modifies notifier
      ensures notifier.pushed == old(notifier.pushed) + [Push(r.userId, MessageFor(r, now), ok)]
    {
      ok := notifier.PushMessage(r.userId, MessageFor(r, now));
    }

    /** processReminder at `now`. */
    method ProcessReminder(r: Reminder, now: int) returns (o: Outcome)
      modifies store, notifier
      ensures Fits(r, now, o)
      ensures store.reminders == AfterOutcome(old(store.reminders), r, now, o)
      ensures notifier.pushed == old(notifier.pushed) + AttemptOf(r, now, o)
      ensures store.order == old(store.order) && store.undecodable == old(store.undecodable)
      ensures store.users == old(store.users)
    {
      if now < NotifyAt(r) {
        return NotDue;
      }
      if now > r.eta {
        var written := store.UpdateReminderStatus(r.id, Expired, now);
        return MarkedExpired(written);
      }
      var delivered := SendReminderNotification(r, now);
      if !delivered {
        return SendFailed;
      }
      var written := store.UpdateReminderStatus(r.id, Sent, now);
      return Delivered(written);
    }

    /** ProcessReminders: fetch the active reminders with ETA after
        `fetchNow`, then process each at `evalNow`, the later clock read,
        going on past every per-reminder error. `ok` is false only when the
        fetch fails, and then nothing is written or pushed. The ghost
        results are the fetched reminders and the outcome of each. */
    method ProcessReminders(fetchNow: int, evalNow: int) returns (ok: bool, ghost fetched: seq<Reminder>, ghost outcomes: seq<Outcome>)
      requires fetchNow <= evalNow
      modifies store, notifier
      ensures !ok ==> store.reminders == old(store.reminders) && notifier.pushed == old(notifier.pushed)
      ensures ok ==> fetched == ActiveAmong(old(store.order), old(store.reminders), old(store.undecodable), After(fetchNow))
      ensures ok ==> |outcomes| == |fetched| && forall i :: 0 <= i < |fetched| ==> Fits(fetched[i], evalNow, outcomes[i])
      ensures ok ==> store.reminders == AfterPass(old(store.reminders), fetched, evalNow, outcomes)
      ensures ok ==> notifier.pushed == old(notifier.pushed) + AttemptsOf(fetched, evalNow, outcomes)
      ensures store.order == old(store.order) && store.undecodable == old(store.undecodable)
      ensures store.users == old(store.users)
    {
      var res := store.GetActiveReminders(fetchNow);
      if res.None? {
        return false, [], [];
      }
      ok := true;
      var rs := res.value;
      fetched := rs;
      outcomes := [];
      var i := 0;
      while i < |rs|
        invariant 0 <= i <= |rs| && |outcomes| == i
        invariant forall j :: 0 <= j < i ==> Fits(rs[j], evalNow, outcomes[j])
        invariant store.reminders == AfterPass(old(store.reminders), rs[..i], evalNow, outcomes)
        invariant notifier.pushed == old(notifier.pushed) + AttemptsOf(rs[..i], evalNow, outcomes)
        invariant store.order == old(store.order) && store.undecodable == old(store.undecodable)
        invariant store.users == old(store.users)
      {
        var o := ProcessReminder(rs[i], evalNow);
        PassStep(old(store.reminders), rs, i, evalNow, outcomes, o);
        FitsStep(rs, i, evalNow, outcomes, o);
        outcomes := outcomes + [o];
        i := i + 1;
      }
      assert rs[..i] == rs;
    }

    /** CleanupExpiredReminders as written: it fetches the active reminders
        with ETA after now - 24h and marks "expired" those with ETA before
        now - 24h. No reminder is both, so it changes nothing
        (CleanupNeverExpires). */
    method CleanupExpiredReminders(now: int) returns (ok: bool, ghost fetched: seq<Reminder>, ghost outcomes: seq<Outcome>)
      modifies store
      ensures ok ==> fetched == ActiveAmong(old(store.order), old(store.reminders), old(store.undecodable), After(now - Day))
      ensures ok ==> |outcomes| == |fetched| && forall i :: 0 <= i < |fetched| ==> CleanupFits(fetched[i], now - Day, outcomes[i])
      ensures ok ==> store.reminders == AfterPass(old(store.reminders), fetched, now, outcomes)
      ensures store.reminders == old(store.reminders)
      ensures store.order == old(store.order) && store.undecodable == old(store.undecodable)
      ensures store.users == old(store.users)
    {
      var cutoff := now - Day;
      var res := store.GetActiveReminders(cutoff);
      if res.None? {
        return false, [], [];
      }
      ok := true;
      var rs := res.value;
      fetched, outcomes := rs, [];
      var i := 0;
      while i < |rs|
        invariant 0 <= i <= |rs| && |outcomes| == i
        invariant forall j :: 0 <= j < i ==> CleanupFits(rs[j], cutoff, outcomes[j])
        invariant store.reminders == AfterPass(old(store.reminders), rs[..i], now, outcomes)
        invariant store.order == old(store.order) && store.undecodable == old(store.undecodable)
        invariant store.users == old(store.users)
      {
        var o := NotDue;
        if rs[i].eta < cutoff {
          var written := store.UpdateReminderStatus(rs[i].id, Expired, now);
          o := MarkedExpired(written);
        }
        PassStep(old(store.reminders), rs, i, now, outcomes, o);
        CleanupFitsStep(rs, i, cutoff, outcomes, o);
        outcomes := outcomes + [o];
        i := i + 1;
      }
      assert rs[..i] == rs;
      CleanupNeverExpires(old(store.order), old(store.reminders), old(store.undecodable), now, outcomes);
    }

    /** The cleanup pass with the query it needs: the active reminders whose
        ETA is before now - 24h, each marked "expired". */
    method CleanupExpiredRemindersFixed(now: int) returns (ok: bool, ghost fetched: seq<Reminder>, ghost outcomes: seq<Outcome>)
      modifies store
      ensures ok ==> fetched == ActiveAmong(old(store.order), old(store.reminders), old(store.undecodable), Before(now - Day))
      ensures ok ==> |outcomes| == |fetched| && forall i :: 0 <= i < |fetched| ==> CleanupFits(fetched[i], now - Day, outcomes[i])
      ensures ok ==> store.reminders == AfterPass(old(store.reminders), fetched, now, outcomes)
      ensures !ok ==> store.reminders == old(store.reminders)
      ensures store.order == old(store.order) && store.undecodable == old(store.undecodable)
      ensures store.users == old(store.users)
    {
      var cutoff := now - Day;
      var res := store.QueryActive(Before(cutoff));
      if res.None? {
        return false, [], [];
      }
      ok := true;
      var rs := res.value;
      fetched, outcomes := rs, [];
      var i := 0;
      while i < |rs|
        invariant 0 <= i <= |rs| && |outcomes| == i
        invariant forall j :: 0 <= j < i ==> CleanupFits(rs[j], cutoff, outcomes[j])
        invariant store.reminders == AfterPass(old(store.reminders), rs[..i], now, outcomes)
        invariant store.order == old(store.order) && store.undecodable == old(store.undecodable)
        invariant store.users == old(store.users)
      {
        var o := NotDue;
        if rs[i].eta < cutoff {
          var written := store.UpdateReminderStatus(rs[i].id, Expired, now);
          o := MarkedExpired(written);
        }
        PassStep(old(store.reminders), rs, i, now, outcomes, o);
        CleanupFitsStep(rs, i, cutoff, outcomes, o);
        outcomes := outcomes + [o];
        i := i + 1;
      }
      assert rs[..i] == rs;
    }

    /** CancelReminder: "cancelled" is written whatever the prior status. */
    method CancelReminder(id: string, now: int) returns (ok: bool)
      modifies store
      ensures ok ==> id in old(store.reminders) && store.reminders == old(store.reminders)[id := old(store.reminders)[id].(status := Cancelled, updatedAt := now)]
      ensures !ok ==> store.reminders == old(store.reminders)
      ensures store.order == old(store.order) && store.undecodable == old(store.undecodable)
      ensures store.users == old(store.users)
    {
      ok := store.UpdateReminderStatus(id, Cancelled, now);
    }

    /** GetUserReminders: ignores the user and returns the active reminders
        whose ETA is more than 24 hours after `now`. */
    method GetUserReminders(userId: string, now: int) returns (res: Option<seq<Reminder>>)
      ensures res.Some? ==> res.value == ActiveAmong(store.order, store.reminders, store.undecodable, After(now + Day))
    {
      res := store.GetActiveReminders(now + Day);
    }
  }
}
