/**
 * The landing page's analysis flow and legal accordion (src/App.tsx) as a
 * state machine. The network reply and the browser's timers are events: the
 * reply arrives through `ReceiveReply`, and `FireNext` runs the timer the
 * browser would run next (the earliest due, the earliest scheduled among equal
 * ones). `now` is the page clock in milliseconds.
 */
module App {
  import opened Wrappers
  import opened Text
  import Analyze

  datatype LegalSection = Terms | Privacy

  datatype Status = Idle | Running | Complete

  datatype SignalStatus = Pending | Done

  datatype SignalState = SignalState(stale: SignalStatus, weak: SignalStatus, inactivity: SignalStatus)

  const AllPending: SignalState := SignalState(Pending, Pending, Pending)
  const AllDone: SignalState := SignalState(Done, Done, Done)

  /** What a scheduled callback does when it runs. */
  datatype TimerAction = RevealStale | RevealWeak | RevealInactivity | Finish(score: int)

  datatype Timer = Timer(due: int, action: TimerAction)

  /** How the analyze request ended, as the page sees it. */
  datatype ClientOutcome =
    | NetworkError                         // fetch rejected
    | Answered(response: Analyze.Response) // the service replied

  /** The part of the reply the page uses: failure, or the score and the three delays. */
  datatype Reply = Failed | Delivered(score: int, staleDelay: nat, weakDelay: nat, inactivityDelay: nat)

  /**
   * A reply is used only when `res.ok` (a 2xx status) and its body has
   * `signals`; everything else ends in the `catch` branch.
   */
  function ReplyOf(outcome: ClientOutcome): (r: Reply)
    ensures r.Delivered? <==>
      outcome.Answered? && 200 <= outcome.response.status <= 299 && outcome.response.body.Analysis?
    ensures r.Delivered? ==> r.score == outcome.response.body.score
  {
    match outcome
    case NetworkError => Failed
    case Answered(r) =>
      if 200 <= r.status <= 299 && r.body.Analysis? then
        var s := r.body.signals;
        Delivered(r.body.score, s.stale.delay, s.weak.delay, s.inactivity.delay)
      else Failed
  }

  function Max3(a: int, b: int, c: int): (r: int)
    ensures r >= a && r >= b && r >= c
    ensures r == a || r == b || r == c
  {
    if a >= b && a >= c then a else if b >= c then b else c
  }

  /** The timers a delivered reply schedules: three reveals, then the finish 300 ms after the last one. */
  function ScheduleFor(now: int, r: Reply): seq<Timer>
    requires r.Delivered?
  {
    [ Timer(now + r.staleDelay, RevealStale),
      Timer(now + r.weakDelay, RevealWeak),
      Timer(now + r.inactivityDelay, RevealInactivity),
      Timer(now + Max3(r.staleDelay, r.weakDelay, r.inactivityDelay) + 300, Finish(r.score)) ]
  }

  /** The index of the timer that runs next: the earliest due, the first scheduled among equals. */
  function NextIndex(ts: seq<Timer>): (i: nat)
    requires ts != []
    ensures i < |ts|
    ensures forall j :: 0 <= j < |ts| ==> ts[i].due <= ts[j].due
    ensures forall j :: 0 <= j < i ==> ts[j].due > ts[i].due
  {
    if |ts| == 1 then 0
    else
      var r := NextIndex(ts[1..]);
      if ts[0].due <= ts[1..][r].due then 0 else r + 1
  }

  function RemoveAt(ts: seq<Timer>, i: nat): (r: seq<Timer>)
    requires i < |ts|
    ensures |r| == |ts| - 1
  {
    ts[..i] + ts[i + 1..]
  }

  predicate HasAction(ts: seq<Timer>, a: TimerAction) {
    exists j :: 0 <= j < |ts| && ts[j].action == a
  }

  /** A signal is complete exactly when its reveal timer has already run. */
  predicate RevealsMatch(ts: seq<Timer>, sig: SignalState) {
    (sig.stale == Done <==> !HasAction(ts, RevealStale)) &&
    (sig.weak == Done <==> !HasAction(ts, RevealWeak)) &&
    (sig.inactivity == Done <==> !HasAction(ts, RevealInactivity))
  }

  /**
   * The pending timers of a delivered reply: the finish is the last one and
   * due no earlier than any other, no action is pending twice, and the
   * signals already shown are those whose reveal has run.
   */
  predicate Scheduled(ts: seq<Timer>, sig: SignalState) {
    ts != [] && ts[|ts| - 1].action.Finish? &&
    (forall j :: 0 <= j < |ts| - 1 ==> !ts[j].action.Finish? && ts[j].due <= ts[|ts| - 1].due) &&
    (forall i, j :: 0 <= i < j < |ts| ==> ts[i].action != ts[j].action) &&
    RevealsMatch(ts, sig)
  }

  /** The schedule of a delivered reply is well formed, with every signal still pending. */
  lemma ScheduleForIsScheduled(now: int, r: Reply)
    requires r.Delivered?
    ensures Scheduled(ScheduleFor(now, r), AllPending)
    ensures ScheduleFor(now, r)[3].due == now + Max3(r.staleDelay, r.weakDelay, r.inactivityDelay) + 300
    ensures forall j :: 0 <= j < 3 ==> ScheduleFor(now, r)[j].due + 300 <= ScheduleFor(now, r)[3].due
    ensures exists j :: 0 <= j < 3 && ScheduleFor(now, r)[j].due + 300 == ScheduleFor(now, r)[3].due
  {
    var ts := ScheduleFor(now, r);
    assert ts[0].action == RevealStale && ts[1].action == RevealWeak && ts[2].action == RevealInactivity;
  }

  /** With the service's delays the signals appear 1000, 2200 and 3400 ms after the reply and the score at 3700 ms. */
  lemma ServiceSchedule(url: Analyze.UrlField, fetched: Analyze.FetchOutcome, serverNow: int,
                        parse: string -> Option<int>, now: int)
    requires Analyze.ValidUrl(url) && fetched.Fetched?
    ensures var r := ReplyOf(Answered(Analyze.Analyze(url, fetched, serverNow, parse)));
      r.Delivered? && ScheduleFor(now, r) ==
        [ Timer(now + 1000, RevealStale), Timer(now + 2200, RevealWeak), Timer(now + 3400, RevealInactivity),
          Timer(now + 3700, Finish(r.score)) ]
  {
    Analyze.FetchedPageIsScored(url, fetched, serverNow, parse);
    var resp := Analyze.Analyze(url, fetched, serverNow, parse);
    Analyze.DelaysIncrease(fetched.httpStatus, Analyze.AgeOf(fetched, serverNow, parse));
  }

  /**
   * The page goes on to the reveal only for a scored reply: a rejected `url`
   * (400), a failed fetch on the server (500) and a network error all end in
   * the failure branch.
   */
  lemma ServiceErrorsFail(url: Analyze.UrlField, fetched: Analyze.FetchOutcome, serverNow: int,
                          parse: string -> Option<int>)
    ensures ReplyOf(Answered(Analyze.Analyze(url, fetched, serverNow, parse))).Delivered? <==>
      Analyze.ValidUrl(url) && fetched.Fetched?
    ensures ReplyOf(NetworkError).Failed?
  {
    if !Analyze.ValidUrl(url) {
      Analyze.InvalidUrlRejectedBeforeFetch(url, fetched, fetched, serverNow, parse);
    } else if fetched.Threw? {
      Analyze.FetchFailureIsOpaque(url, serverNow, parse);
    } else {
      Analyze.FetchedPageIsScored(url, fetched, serverNow, parse);
    }
  }

  /** The finish timer runs only once every reveal has run: it is the last timer and due no earlier. */
  lemma FinishRunsLast(ts: seq<Timer>, sig: SignalState)
    requires Scheduled(ts, sig) && ts[NextIndex(ts)].action.Finish?
    ensures ts == [ts[|ts| - 1]] && sig == AllDone
  {
    assert !HasAction(ts, RevealStale) && !HasAction(ts, RevealWeak) && !HasAction(ts, RevealInactivity);
  }

  /** Removing a timer other than the last keeps the rest in order. */
  lemma RemoveAtKeepsOrder(ts: seq<Timer>, i: nat)
    requires i < |ts| - 1
    ensures var r := RemoveAt(ts, i);
      r[|r| - 1] == ts[|ts| - 1] &&
      forall j :: 0 <= j < |r| ==> r[j] == if j < i then ts[j] else ts[j + 1]
  {
  }

  /** Removing one timer removes its action and keeps every other action pending as before. */
  lemma RemoveAtActions(ts: seq<Timer>, i: nat, b: TimerAction)
    requires i < |ts| - 1
    requires forall x, y :: 0 <= x < y < |ts| ==> ts[x].action != ts[y].action
    ensures HasAction(RemoveAt(ts, i), b) <==> HasAction(ts, b) && b != ts[i].action
  {
    var r := RemoveAt(ts, i);
    RemoveAtKeepsOrder(ts, i);
    if HasAction(ts, b) && b != ts[i].action {
      var j :| 0 <= j < |ts| && ts[j].action == b;
      if j < i { assert r[j].action == b; } else { assert r[j - 1].action == b; }
    }
    if HasAction(r, b) {
      var j :| 0 <= j < |r| && r[j].action == b;
      var j' := if j < i then j else j + 1;
      assert ts[j'].action == b && j' != i;
    }
  }

  /** Removing a timer other than the last keeps the finish last and due no earlier than the rest. */
  lemma RemoveAtKeepsFinishLast(ts: seq<Timer>, i: nat)
    requires i < |ts| - 1 && ts[|ts| - 1].action.Finish?
    requires forall j :: 0 <= j < |ts| - 1 ==> !ts[j].action.Finish? && ts[j].due <= ts[|ts| - 1].due
    ensures var r := RemoveAt(ts, i);
      r != [] && r[|r| - 1].action.Finish? &&
      forall j :: 0 <= j < |r| - 1 ==> !r[j].action.Finish? && r[j].due <= r[|r| - 1].due
  {
    var r := RemoveAt(ts, i);
    RemoveAtKeepsOrder(ts, i);
    forall j | 0 <= j < |r| - 1 ensures !r[j].action.Finish? && r[j].due <= r[|r| - 1].due {
      assert r[j] == if j < i then ts[j] else ts[j + 1];
    }
  }

  /** Removing a timer keeps the pending actions distinct. */
  lemma RemoveAtKeepsDistinct(ts: seq<Timer>, i: nat)
    requires i < |ts| - 1
    requires forall x, y :: 0 <= x < y < |ts| ==> ts[x].action != ts[y].action
    ensures var r := RemoveAt(ts, i);
      forall x, y :: 0 <= x < y < |r| ==> r[x].action != r[y].action
  {
    var r := RemoveAt(ts, i);
    RemoveAtKeepsOrder(ts, i);
    forall x, y | 0 <= x < y < |r| ensures r[x].action != r[y].action {
      var x' := if x < i then x else x + 1;
      var y' := if y < i then y else y + 1;
      assert r[x] == ts[x'] && r[y] == ts[y'];
    }
  }

  /** Running the reveal at `i` marks exactly its signal complete. */
  lemma RemoveAtKeepsReveals(ts: seq<Timer>, sig: SignalState, i: nat)
    requires i < |ts| - 1 && !ts[i].action.Finish?
    requires forall x, y :: 0 <= x < y < |ts| ==> ts[x].action != ts[y].action
    requires RevealsMatch(ts, sig)
    ensures RevealsMatch(RemoveAt(ts, i), Reveal(sig, ts[i].action))
  {
    var r := RemoveAt(ts, i);
    RemoveAtActions(ts, i, RevealStale);
    RemoveAtActions(ts, i, RevealWeak);
    RemoveAtActions(ts, i, RevealInactivity);
    var sig' := Reveal(sig, ts[i].action);
    assert HasAction(ts, ts[i].action);
    match ts[i].action
    case RevealStale => assert RevealsMatch(r, sig');
    case RevealWeak => assert RevealsMatch(r, sig');
    case RevealInactivity => assert RevealsMatch(r, sig');
  }

  /** Running a reveal keeps the schedule well formed and marks exactly that signal complete. */
  lemma RevealKeepsScheduled(ts: seq<Timer>, sig: SignalState, i: nat)
    requires Scheduled(ts, sig) && i < |ts| && !ts[i].action.Finish?
    ensures Scheduled(RemoveAt(ts, i), Reveal(sig, ts[i].action))
  {
    assert i < |ts| - 1;
    RemoveAtKeepsFinishLast(ts, i);
    RemoveAtKeepsDistinct(ts, i);
    RemoveAtKeepsReveals(ts, sig, i);
  }

  /** The signal a reveal completes. */
  function Reveal(sig: SignalState, a: TimerAction): SignalState {
    match a
    case RevealStale => sig.(stale := Done)
    case RevealWeak => sig.(weak := Done)
    case RevealInactivity => sig.(inactivity := Done)
    case Finish(_) => sig
  }

  /** `toggleLegal`: opening a section closes the other; toggling the open one closes it. */
  function Toggle(prev: Option<LegalSection>, section: LegalSection): (r: Option<LegalSection>)
    ensures r == Some(section) <==> prev != Some(section)
  {
    if prev == Some(section) then None else Some(section)
  }

  /**
   * Toggling the same section twice gives back the state before when nothing
   * or that same section was open; with the other section open, it leaves
   * none open.
   */
  lemma ToggleTwice(prev: Option<LegalSection>, section: LegalSection)
    ensures prev == None || prev == Some(section) ==> Toggle(Toggle(prev, section), section) == prev
    ensures prev.Some? && prev.value != section ==> Toggle(Toggle(prev, section), section) == None
  {
  }

  /** The section named by the location hash (`#terms`, `#privacy`), if any. */
  function LegalFromHash(hash: string): Option<LegalSection> {
    var h := ReplaceFirst(hash, "#", "");
    if h == "terms" then Some(Terms) else if h == "privacy" then Some(Privacy) else None
  }

  /** The hash `#` + name opens the section of that name, and only those two names open one. */
  lemma LegalFromHashNames(name: string)
    ensures LegalFromHash("#" + name) ==
      if name == "terms" then Some(Terms) else if name == "privacy" then Some(Privacy) else None
  {
    var hash := "#" + name;
    assert hash[0..1] == "#";
    assert IndexOf(hash, "#") == Some(0);
    assert ReplaceFirst(hash, "#", "") == hash[1..];
    assert hash[1..] == name;
  }

  class Page {
    var url: string
    var openLegal: Option<LegalSection>
    var status: Status
    var score: Option<int>
    var signals: SignalState
    var timers: seq<Timer>
    var awaiting: bool   // the analyze request is in flight

    /** The states the page can reach. */
    predicate Valid()
      reads this
    {
      (status != Running ==> timers == [] && !awaiting) &&
      (status == Idle ==> signals == AllPending && score.None?) &&
      (awaiting ==> timers == [] && signals == AllPending && score.None?) &&
      (status == Running && !awaiting ==> Scheduled(timers, signals) && score.None?) &&
      (score.Some? ==> status == Complete && signals == AllDone)
    }

    /** The page after mounting, with the legal section of the location hash opened. */
    constructor(hash: string)
      ensures Valid()
      ensures url == "" && status == Idle && openLegal == LegalFromHash(hash)
    {
      url := "";
      openLegal := LegalFromHash(hash);
      status := Idle;
      score := None;
      signals := AllPending;
      timers := [];
      awaiting := false;
    }

    method SetUrl(u: string)
      modifies this
      ensures url == u
      ensures openLegal == old(openLegal) && status == old(status) && score == old(score)
      ensures signals == old(signals) && timers == old(timers) && awaiting == old(awaiting)
    {
      url := u;
    }

    method ToggleLegal(section: LegalSection)
      modifies this
      ensures openLegal == Toggle(old(openLegal), section)
      ensures url == old(url) && status == old(status) && score == old(score)
      ensures signals == old(signals) && timers == old(timers) && awaiting == old(awaiting)
    {
      openLegal := if openLegal == Some(section) then None else Some(section);
    }

    /** `resetAnalysis`. */
    method ResetAnalysis()
      modifies this
      ensures status == Idle && score.None? && signals == AllPending
      ensures url == old(url) && openLegal == old(openLegal) && timers == old(timers) && awaiting == old(awaiting)
    {
      status := Idle;
      score := None;
      signals := AllPending;
    }

    /**
     * `handleAnalyze`, from the Analyze button that is only shown while the
     * page is idle: a blank link does nothing, anything else starts a run and
     * sends the request.
     */
    method HandleAnalyze()
      requires Valid() && status == Idle
      modifies this
      ensures Valid()
      ensures Trim(old(url)) == "" ==> status == Idle && !awaiting
      ensures Trim(old(url)) != "" ==> status == Running && awaiting && score.None? && signals == AllPending
      ensures url == old(url) && openLegal == old(openLegal) && timers == old(timers)
    {
      if Trim(url) == "" {
        return;
      }
      status := Running;
      score := None;
      signals := AllPending;
      awaiting := true;
    }

    /**
     * The rest of `handleAnalyze` once the request settles: a failure
     * completes the run without a score; a delivered reply schedules the
     * three reveals and the finish.
     */
    method ReceiveReply(outcome: ClientOutcome, now: int)
      requires Valid() && awaiting
      modifies this
      ensures Valid() && !awaiting
      ensures ReplyOf(outcome).Failed? ==> status == Complete && score.None? && timers == [] && signals == AllPending
      ensures ReplyOf(outcome).Delivered? ==>
        status == Running && timers == ScheduleFor(now, ReplyOf(outcome)) && signals == AllPending
      ensures url == old(url) && openLegal == old(openLegal)
    {
      awaiting := false;
      var reply := ReplyOf(outcome);
      match reply
      case Failed =>
        status := Complete;
        score := None;
      case Delivered(_, _, _, _) =>
        ScheduleForIsScheduled(now, reply);
        timers := ScheduleFor(now, reply);
    }

    /** The browser runs the next due timer. */
    method FireNext()
      requires Valid() && timers != []
      modifies this
      ensures Valid()
      ensures var i := NextIndex(old(timers));
        timers == RemoveAt(old(timers), i) &&
        match old(timers)[i].action
        case Finish(s) => status == Complete && score == Some(s) && signals == AllDone && timers == []
        case _ => status == Running && signals == Reveal(old(signals), old(timers)[i].action)
      ensures url == old(url) && openLegal == old(openLegal) && awaiting == old(awaiting)
    {
      var i := NextIndex(timers);
      var t := timers[i];
      match t.action
      case Finish(s) =>
        FinishRunsLast(timers, signals);
        timers := RemoveAt(timers, i);
        score := Some(s);
        status := Complete;
      case _ =>
        RevealKeepsScheduled(timers, signals, i);
        timers := RemoveAt(timers, i);
        signals := Reveal(signals, t.action);
    }

    /** The Check Another Link button: ignored while running, otherwise back to an empty idle page. */
    method CheckAnotherLink()
      requires Valid()
      modifies this
      ensures Valid()
      ensures old(status) == Running ==> status == Running && url == old(url)
      ensures old(status) != Running ==> status == Idle && url == "" && score.None? && signals == AllPending
      ensures openLegal == old(openLegal) && timers == old(timers) && awaiting == old(awaiting)
    {
      if status == Running {
        return;
      }
      ResetAnalysis();
      url := "";
    }
  }
}
