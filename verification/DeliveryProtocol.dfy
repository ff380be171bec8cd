/**
 The single-flight protocol behind the OTP webhook's deliverOnce.

 Any number of request threads share one table of receipts under a mutex.  The first
 thread to bring a delivery id becomes its leader and calls the provider outside the
 mutex; later threads with the same body wait on the leader's channel.  Receipts that
 are finished and expired are swept out of the table whenever a thread enters.

 `Shared` holds what the mutex protects, and its three critical sections are functions,
 so that the class in DeliveryApp.dfy can be proved against them.  `State` adds the
 clock, the threads and a log of provider calls; `Apply` is one atomic step.  Every
 theorem speaks of a state reached by any interleaving of any number of threads.
 */
module DeliveryProtocol {
  import opened Wrappers

  /** SHA-256 of a request body, as an injective tag. */
  datatype Digest = Sha256(preimage: string)

  datatype Request = Request(id: string, body: string, expiresAt: int)

  /** What the provider answered: a message id, and an error if it failed. */
  datatype Outcome = Outcome(messageID: string, error: Option<string>)

  /** One receipt.  `outcome` is set when it completes; `closes` counts close(done). */
  datatype Receipt = Receipt(id: string, fingerprint: Digest, expiresAt: int, outcome: Option<Outcome>, closes: nat)

  /** Every receipt ever issued, and the table that maps a delivery id to one of them. */
  datatype Shared = Shared(issued: seq<Receipt>, table: map<string, nat>)

  datatype Entry = Lead(receipt: nat) | Join(receipt: nat) | Refuse(receipt: nat)

  predicate TableInRange(sh: Shared) {
    forall id | id in sh.table :: sh.table[id] < |sh.issued|
  }

  predicate Stale(r: Receipt, now: int) {
    r.outcome.Some? && r.expiresAt <= now
  }

  function Sweep(sh: Shared, now: int): Shared
    requires TableInRange(sh)
  {
    sh.(table := map id | id in sh.table && !Stale(sh.issued[sh.table[id]], now) :: sh.table[id])
  }

  /** The first critical section: sweep, look up, insert. */
  function Enter(sh: Shared, req: Request, now: int): (Shared, Entry)
    requires TableInRange(sh)
  {
    var swept := Sweep(sh, now);
    if req.id in swept.table then
      var r := swept.table[req.id];
      (swept, if swept.issued[r].fingerprint != Sha256(req.body) then Refuse(r) else Join(r))
    else
      var r := |swept.issued|;
      (Shared(swept.issued + [Receipt(req.id, Sha256(req.body), req.expiresAt, None, 0)],
              swept.table[req.id := r]),
       Lead(r))
  }

  /** The second critical section: publish the outcome and close the channel. */
  function Finish(sh: Shared, r: nat, outcome: Outcome): Shared
    requires r < |sh.issued|
  {
    var old' := sh.issued[r];
    sh.(issued := sh.issued[r := old'.(outcome := Some(outcome), closes := old'.closes + 1)])
  }

  // ----- the whole system

  datatype Verdict = Delivered(receipt: nat, outcome: Outcome) | Conflicted(receipt: nat) | Cancelled(receipt: nat)

  /** The program counter and locals of one request thread. */
  datatype Thread =
    | Admitted(req: Request)
    | Timed(req: Request, now: int)
    | Elected(req: Request, receipt: nat)
    | Calling(req: Request, receipt: nat, call: nat)
    | Answered(req: Request, receipt: nat, call: nat, outcome: Outcome)
    | Waiting(req: Request, receipt: nat)
    | Woken(req: Request, receipt: nat)
    | Returned(req: Request, verdict: Verdict)

  datatype Answer = Answer(at: int, outcome: Outcome)

  /** One call of the provider, logged when it begins and again when it returns. */
  datatype Call = Call(receipt: nat, body: string, began: int, answer: Option<Answer>)

  /** `leaders[r]` is the thread that inserted receipt r. */
  datatype State = State(clock: int, shared: Shared, leaders: seq<nat>, threads: map<nat, Thread>, calls: seq<Call>)

  datatype Action =
    | Admit(thread: nat, req: Request)
    | Tick(elapsed: nat)
    | ReadClock(thread: nat)
    | EnterTable(thread: nat)
    | CallProvider(thread: nat)
    | ProviderReturns(thread: nat, outcome: Outcome)
    | FinishReceipt(thread: nat)
    | Wake(thread: nat)
    | Collect(thread: nat)
    | CancelWait(thread: nat)

  /** The part of validateRequest that concerns the protocol: the id and the expiry. */
  predicate Admissible(req: Request, now: int) {
    0 < |req.id| <= 128 && now < req.expiresAt
  }

  predicate Enabled(s: State, a: Action) {
    match a
    case Admit(t, req) => t !in s.threads && Admissible(req, s.clock)
    case Tick(_) => true
    case ReadClock(t) => t in s.threads && s.threads[t].Admitted?
    case EnterTable(t) => t in s.threads && s.threads[t].Timed? && TableInRange(s.shared)
    case CallProvider(t) => t in s.threads && s.threads[t].Elected?
    case ProviderReturns(t, _) => t in s.threads && s.threads[t].Calling? && s.threads[t].call < |s.calls|
    case FinishReceipt(t) => t in s.threads && s.threads[t].Answered? && s.threads[t].receipt < |s.shared.issued|
    case Wake(t) =>
      && t in s.threads && s.threads[t].Waiting? && s.threads[t].receipt < |s.shared.issued|
      && s.shared.issued[s.threads[t].receipt].closes > 0
    case Collect(t) =>
      && t in s.threads && s.threads[t].Woken? && s.threads[t].receipt < |s.shared.issued|
      && s.shared.issued[s.threads[t].receipt].outcome.Some?
    case CancelWait(t) => t in s.threads && s.threads[t].Waiting?
  }

  function Apply(s: State, a: Action): State
    requires Enabled(s, a)
  {
    match a
    case Admit(t, req) => s.(threads := s.threads[t := Admitted(req)])
    case Tick(elapsed) => s.(clock := s.clock + elapsed)
    case ReadClock(t) => s.(threads := s.threads[t := Timed(s.threads[t].req, s.clock)])
    case EnterTable(t) =>
      var req := s.threads[t].req;
      var (sh, entry) := Enter(s.shared, req, s.threads[t].now);
      (match entry
       case Lead(r) =>
         s.(shared := sh, leaders := s.leaders + [t], threads := s.threads[t := Elected(req, r)])
       case Join(r) => s.(shared := sh, threads := s.threads[t := Waiting(req, r)])
       case Refuse(r) => s.(shared := sh, threads := s.threads[t := Returned(req, Conflicted(r))]))
    case CallProvider(t) =>
      var Elected(req, r) := s.threads[t];
      s.(calls := s.calls + [Call(r, req.body, s.clock, None)],
         threads := s.threads[t := Calling(req, r, |s.calls|)])
    case ProviderReturns(t, outcome) =>
      var Calling(req, r, c) := s.threads[t];
      s.(calls := s.calls[c := s.calls[c].(answer := Some(Answer(s.clock, outcome)))],
         threads := s.threads[t := Answered(req, r, c, outcome)])
    case FinishReceipt(t) =>
      var Answered(req, r, _, outcome) := s.threads[t];
      s.(shared := Finish(s.shared, r, outcome),
         threads := s.threads[t := Returned(req, Delivered(r, outcome))])
    case Wake(t) => s.(threads := s.threads[t := Woken(s.threads[t].req, s.threads[t].receipt)])
    case Collect(t) =>
      var r := s.threads[t].receipt;
      s.(threads := s.threads[t := Returned(s.threads[t].req, Delivered(r, s.shared.issued[r].outcome.value))])
    case CancelWait(t) =>
      s.(threads := s.threads[t := Returned(s.threads[t].req, Cancelled(s.threads[t].receipt))])
  }

  predicate Initial(s: State) {
    s.shared == Shared([], map[]) && s.leaders == [] && s.threads == map[] && s.calls == []
  }

  /** `run` is an interleaving that can happen from `s`. */
  predicate Legal(s: State, run: seq<Action>)
    decreases |run|
  {
    run == [] || (Enabled(s, run[0]) && Legal(Apply(s, run[0]), run[1..]))
  }

  function After(s: State, run: seq<Action>): State
    requires Legal(s, run)
    decreases |run|
  {
    if run == [] then s else After(Apply(s, run[0]), run[1..])
  }

  // ----- the inductive invariant, by the parts of the state it speaks of

  predicate Leading(th: Thread) {
    th.Elected? || th.Calling? || th.Answered?
  }

  predicate Leads(th: Thread, r: nat) {
    Leading(th) && th.receipt == r
  }

  predicate Done(sh: Shared, r: nat)
    requires r < |sh.issued|
  {
    sh.issued[r].outcome.Some?
  }

  predicate SameBody(sh: Shared, r: nat, req: Request) {
    r < |sh.issued| && sh.issued[r].id == req.id && sh.issued[r].fingerprint == Sha256(req.body)
  }

  /** The table is consistent, keeps unfinished receipts, and keeps every receipt until it expires. */
  ghost predicate TableInv(sh: Shared, clock: int) {
    && TableInRange(sh)
    && (forall id | id in sh.table :: sh.issued[sh.table[id]].id == id)
    && (forall r | 0 <= r < |sh.issued| && (!Done(sh, r) || clock < sh.issued[r].expiresAt) ::
          sh.issued[r].id in sh.table && sh.table[sh.issued[r].id] == r)
  }

  /** When a receipt is issued, every earlier receipt of its id has finished and expired. */
  ghost predicate SuccessionInv(sh: Shared, clock: int) {
    forall q, r | 0 <= q < r < |sh.issued| && sh.issued[q].id == sh.issued[r].id ::
      Done(sh, q) && sh.issued[q].expiresAt <= clock
  }

  /** What one thread knows about the receipt and the call it is concerned with. */
  ghost predicate ThreadInv(sh: Shared, clock: int, calls: seq<Call>, th: Thread) {
    match th
    case Admitted(_) => true
    case Timed(_, now) => now <= clock
    case Elected(req, r) => SameBody(sh, r, req) && forall c | 0 <= c < |calls| :: calls[c].receipt != r
    case Calling(req, r, c) => SameBody(sh, r, req) && c < |calls| && calls[c].receipt == r && calls[c].answer.None?
    case Answered(req, r, c, outcome) => SameBody(sh, r, req) && c < |calls| && AnsweredWith(calls[c], r, outcome)
    case Waiting(req, r) => SameBody(sh, r, req)
    case Woken(req, r) => SameBody(sh, r, req) && Done(sh, r)
    case Returned(req, Delivered(r, outcome)) => SameBody(sh, r, req) && sh.issued[r].outcome == Some(outcome)
    case Returned(req, Conflicted(r)) =>
      r < |sh.issued| && sh.issued[r].id == req.id && sh.issued[r].fingerprint != Sha256(req.body)
    case Returned(req, Cancelled(r)) => SameBody(sh, r, req)
  }

  predicate AnsweredWith(c: Call, r: nat, outcome: Outcome) {
    c.receipt == r && c.answer.Some? && c.answer.value.outcome == outcome
  }

  /** A receipt is unfinished exactly while the one thread that issued it is on its way to finish it. */
  ghost predicate LeaderInv(sh: Shared, leaders: seq<nat>, threads: map<nat, Thread>) {
    && |leaders| == |sh.issued|
    && (forall r | 0 <= r < |leaders| && !Done(sh, r) :: leaders[r] in threads && Leads(threads[leaders[r]], r))
    && (forall t | t in threads && Leading(threads[t]) ::
          var r := threads[t].receipt;
          r < |leaders| && leaders[r] == t && !Done(sh, r))
  }

  ghost predicate CallWellFormed(sh: Shared, clock: int, c: Call) {
    && c.receipt < |sh.issued|
    && c.began <= clock
    && sh.issued[c.receipt].fingerprint == Sha256(c.body)
    && (c.answer.Some? ==> c.began <= c.answer.value.at <= clock)
  }

  /** Each receipt has at most one provider call. */
  ghost predicate CallInv(sh: Shared, clock: int, calls: seq<Call>) {
    && (forall c | 0 <= c < |calls| :: CallWellFormed(sh, clock, calls[c]))
    && (forall c, d | 0 <= c < d < |calls| :: calls[c].receipt != calls[d].receipt)
  }

  /** A finished receipt carries its call's answer and was closed once; an unfinished one never was. */
  ghost predicate OutcomeInv(sh: Shared, calls: seq<Call>) {
    forall r | 0 <= r < |sh.issued| ::
      if Done(sh, r) then
        && sh.issued[r].closes == 1
        && exists c :: 0 <= c < |calls| && AnsweredWith(calls[c], r, sh.issued[r].outcome.value)
      else
        sh.issued[r].closes == 0
  }

  predicate SameId(sh: Shared, c: Call, d: Call) {
    c.receipt < |sh.issued| && d.receipt < |sh.issued| && sh.issued[c.receipt].id == sh.issued[d.receipt].id
  }

  /** Call c was answered, and its receipt had expired, when call d began. */
  predicate Precedes(sh: Shared, c: Call, d: Call)
    requires c.receipt < |sh.issued|
  {
    c.answer.Some? && c.answer.value.at <= d.began && sh.issued[c.receipt].expiresAt <= d.began
  }

  /** Calls of one id never overlap, and the later one waited for the earlier receipt to expire. */
  ghost predicate OrderInv(sh: Shared, calls: seq<Call>) {
    forall c, d | 0 <= c < d < |calls| && SameId(sh, calls[c], calls[d]) :: Precedes(sh, calls[c], calls[d])
  }

  ghost predicate ThreadsInv(sh: Shared, clock: int, calls: seq<Call>, threads: map<nat, Thread>) {
    forall t | t in threads :: ThreadInv(sh, clock, calls, threads[t])
  }

  ghost predicate Inv(s: State) {
    && TableInv(s.shared, s.clock)
    && SuccessionInv(s.shared, s.clock)
    && ThreadsInv(s.shared, s.clock, s.calls, s.threads)
    && LeaderInv(s.shared, s.leaders, s.threads)
    && CallInv(s.shared, s.clock, s.calls)
    && OutcomeInv(s.shared, s.calls)
    && OrderInv(s.shared, s.calls)
  }

  // ----- entering the table

  lemma SweepKeeps(sh: Shared, now: int, clock: int)
    requires TableInv(sh, clock) && now <= clock
    ensures TableInv(Sweep(sh, now), clock)
  {
  }

  /** A lookup that misses after the sweep means every receipt of the id is finished and expired. */
  lemma MissMeansOver(sh: Shared, id: string, clock: int)
    requires TableInv(sh, clock) && id !in sh.table
    ensures forall q | 0 <= q < |sh.issued| && sh.issued[q].id == id :: Done(sh, q) && sh.issued[q].expiresAt <= clock
  {
  }

  lemma InsertKeeps(sh: Shared, r: Receipt, clock: int)
    requires TableInv(sh, clock) && SuccessionInv(sh, clock) && r.id !in sh.table
    ensures var sh' := Shared(sh.issued + [r], sh.table[r.id := |sh.issued|]);
            TableInv(sh', clock) && SuccessionInv(sh', clock)
  {
    MissMeansOver(sh, r.id, clock);
    var sh' := Shared(sh.issued + [r], sh.table[r.id := |sh.issued|]);
    assert forall q | 0 <= q < |sh.issued| :: sh'.issued[q] == sh.issued[q] && Done(sh', q) == Done(sh, q);
    assert forall id | id in sh'.table :: id == r.id || id in sh.table;
  }

  /** Entering only adds a receipt, and only for an id whose receipts have all finished and expired. */
  lemma EnterShared(sh: Shared, req: Request, now: int, clock: int)
    requires TableInv(sh, clock) && SuccessionInv(sh, clock) && now <= clock
    ensures var (sh', entry) := Enter(sh, req, now);
            && TableInv(sh', clock) && SuccessionInv(sh', clock)
            && (if entry.Lead? then
                  && entry.receipt == |sh.issued|
                  && sh'.issued == sh.issued + [Receipt(req.id, Sha256(req.body), req.expiresAt, None, 0)]
                else
                  && sh'.issued == sh.issued && entry.receipt < |sh.issued|
                  && sh.issued[entry.receipt].id == req.id
                  && (entry.Join? <==> SameBody(sh, entry.receipt, req)))
  {
    SweepKeeps(sh, now, clock);
    var swept := Sweep(sh, now);
    assert SuccessionInv(swept, clock);
    if req.id !in swept.table {
      InsertKeeps(swept, Receipt(req.id, Sha256(req.body), req.expiresAt, None, 0), clock);
    }
  }

  lemma EnterStep(s: State, t: nat)
    requires Inv(s) && Enabled(s, EnterTable(t))
    ensures Inv(Apply(s, EnterTable(t)))
  {
    var req := s.threads[t].req;
    assert ThreadInv(s.shared, s.clock, s.calls, s.threads[t]);
    EnterShared(s.shared, req, s.threads[t].now, s.clock);
    var (sh, entry) := Enter(s.shared, req, s.threads[t].now);
    assert sh.issued[..|s.shared.issued|] == s.shared.issued;
    CallsExtend(s.shared, sh, s.clock, s.calls);
    OutcomesExtend(s.shared, sh, s.calls);
    ThreadsExtend(s.shared, sh, s.clock, s.calls, s.threads);
    match entry
    case Lead(r) =>
      LeadersElect(s.shared, sh, s.leaders, s.threads, t, req);
      NotYetCalled(s.shared, s.clock, s.calls);
      ThreadReplaced(sh, s.clock, s.calls, s.threads, t, Elected(req, r));
    case Join(r) =>
      LeadersStay(s.shared, sh, s.leaders, s.threads, t, Waiting(req, r));
      ThreadReplaced(sh, s.clock, s.calls, s.threads, t, Waiting(req, r));
    case Refuse(r) =>
      LeadersStay(s.shared, sh, s.leaders, s.threads, t, Returned(req, Conflicted(r)));
      ThreadReplaced(sh, s.clock, s.calls, s.threads, t, Returned(req, Conflicted(r)));
  }

  lemma ThreadReplaced(sh: Shared, clock: int, calls: seq<Call>, threads: map<nat, Thread>, t: nat, th: Thread)
    requires ThreadsInv(sh, clock, calls, threads) && ThreadInv(sh, clock, calls, th)
    ensures ThreadsInv(sh, clock, calls, threads[t := th])
  {
  }

  lemma LeadersStay(sh: Shared, sh': Shared, leaders: seq<nat>, threads: map<nat, Thread>, t: nat, th: Thread)
    requires LeaderInv(sh, leaders, threads) && sh'.issued == sh.issued
    requires t in threads && threads[t].Timed? && (th.Waiting? || th.Returned?)
    ensures LeaderInv(sh', leaders, threads[t := th])
  {
  }

  lemma NotYetCalled(sh: Shared, clock: int, calls: seq<Call>)
    requires CallInv(sh, clock, calls)
    ensures forall c | 0 <= c < |calls| :: calls[c].receipt != |sh.issued|
  {
    forall c | 0 <= c < |calls|
      ensures calls[c].receipt != |sh.issued|
    {
      assert CallWellFormed(sh, clock, calls[c]);
    }
  }

  lemma LeadersElect(sh: Shared, sh': Shared, leaders: seq<nat>, threads: map<nat, Thread>, t: nat, req: Request)
    requires LeaderInv(sh, leaders, threads)
    requires t in threads && threads[t].Timed?
    requires |sh'.issued| == |sh.issued| + 1 && sh.issued <= sh'.issued && !Done(sh', |sh.issued|)
    ensures LeaderInv(sh', leaders + [t], threads[t := Elected(req, |sh.issued|)])
  {
  }

  lemma CallsExtend(sh: Shared, sh': Shared, clock: int, calls: seq<Call>)
    requires CallInv(sh, clock, calls) && OrderInv(sh, calls) && sh.issued <= sh'.issued
    ensures CallInv(sh', clock, calls) && OrderInv(sh', calls)
  {
    forall c, d | 0 <= c < d < |calls| && SameId(sh', calls[c], calls[d])
      ensures Precedes(sh', calls[c], calls[d])
    {
      assert CallWellFormed(sh, clock, calls[c]) && CallWellFormed(sh, clock, calls[d]);
      assert SameId(sh, calls[c], calls[d]);
    }
  }

  lemma OutcomesExtend(sh: Shared, sh': Shared, calls: seq<Call>)
    requires OutcomeInv(sh, calls) && sh.issued <= sh'.issued
    requires forall r | |sh.issued| <= r < |sh'.issued| :: !Done(sh', r) && sh'.issued[r].closes == 0
    ensures OutcomeInv(sh', calls)
  {
  }

  lemma ThreadsExtend(sh: Shared, sh': Shared, clock: int, calls: seq<Call>, threads: map<nat, Thread>)
    requires ThreadsInv(sh, clock, calls, threads) && sh.issued <= sh'.issued
    ensures ThreadsInv(sh', clock, calls, threads)
  {
  }

  // ----- the provider call

  lemma CallStep(s: State, t: nat)
    requires Inv(s) && Enabled(s, CallProvider(t))
    ensures Inv(Apply(s, CallProvider(t)))
  {
    var s' := Apply(s, CallProvider(t));
    var r := s.threads[t].receipt;
    var new' := s'.calls[|s.calls|];
    assert ThreadInv(s.shared, s.clock, s.calls, s.threads[t]);
    assert Leads(s.threads[t], r);
    forall c | 0 <= c < |s.calls| && SameId(s.shared, s.calls[c], new')
      ensures Precedes(s.shared, s.calls[c], new')
    {
      AllEarlierPrecede(s, r, c);
    }
    CallOrder(s, new');
    CallOutcomes(s, new');
    CallThreads(s, t, r, new');
    assert LeaderInv(s'.shared, s'.leaders, s'.threads);
  }

  /** When an unfinished receipt exists, every call for its id on another receipt is over and expired. */
  lemma AllEarlierPrecede(s: State, r: nat, c: nat)
    requires TableInv(s.shared, s.clock) && SuccessionInv(s.shared, s.clock)
    requires CallInv(s.shared, s.clock, s.calls) && OutcomeInv(s.shared, s.calls)
    requires r < |s.shared.issued| && !Done(s.shared, r)
    requires c < |s.calls| && s.calls[c].receipt != r
    requires s.calls[c].receipt < |s.shared.issued| && s.shared.issued[s.calls[c].receipt].id == s.shared.issued[r].id
    ensures s.calls[c].answer.Some? && s.calls[c].answer.value.at <= s.clock
    ensures s.shared.issued[s.calls[c].receipt].expiresAt <= s.clock
  {
    var q := s.calls[c].receipt;
    assert q < r && Done(s.shared, q);
    var d :| 0 <= d < |s.calls| && AnsweredWith(s.calls[d], q, s.shared.issued[q].outcome.value);
    assert d == c;
    assert CallWellFormed(s.shared, s.clock, s.calls[c]);
  }

  lemma CallOrder(s: State, new': Call)
    requires OrderInv(s.shared, s.calls)
    requires CallInv(s.shared, s.clock, s.calls)
    requires CallWellFormed(s.shared, s.clock, new')
    requires forall c | 0 <= c < |s.calls| :: s.calls[c].receipt != new'.receipt
    requires forall c | 0 <= c < |s.calls| && SameId(s.shared, s.calls[c], new') :: Precedes(s.shared, s.calls[c], new')
    ensures OrderInv(s.shared, s.calls + [new'])
    ensures CallInv(s.shared, s.clock, s.calls + [new'])
  {
  }

  lemma CallOutcomes(s: State, new': Call)
    requires OutcomeInv(s.shared, s.calls)
    ensures OutcomeInv(s.shared, s.calls + [new'])
  {
    var calls' := s.calls + [new'];
    forall r | 0 <= r < |s.shared.issued| && Done(s.shared, r)
      ensures exists c :: 0 <= c < |calls'| && AnsweredWith(calls'[c], r, s.shared.issued[r].outcome.value)
    {
      var c :| 0 <= c < |s.calls| && AnsweredWith(s.calls[c], r, s.shared.issued[r].outcome.value);
      assert calls'[c] == s.calls[c];
    }
  }

  lemma CallThreads(s: State, t: nat, r: nat, new': Call)
    requires ThreadsInv(s.shared, s.clock, s.calls, s.threads) && LeaderInv(s.shared, s.leaders, s.threads)
    requires t in s.threads && s.threads[t].Elected? && s.threads[t].receipt == r
    requires new'.receipt == r && new'.answer.None?
    ensures ThreadsInv(s.shared, s.clock, s.calls + [new'], s.threads[t := Calling(s.threads[t].req, r, |s.calls|)])
  {
    var calls' := s.calls + [new'];
    forall u | u in s.threads && u != t
      ensures ThreadInv(s.shared, s.clock, calls', s.threads[u])
    {
      assert ThreadInv(s.shared, s.clock, s.calls, s.threads[u]);
      assert ThreadInv(s.shared, s.clock, s.calls, s.threads[t]);
    }
  }

  // ----- the provider's answer

  lemma AnswerStep(s: State, t: nat, outcome: Outcome)
    requires Inv(s) && Enabled(s, ProviderReturns(t, outcome))
    ensures Inv(Apply(s, ProviderReturns(t, outcome)))
  {
    var s' := Apply(s, ProviderReturns(t, outcome));
    var c := s.threads[t].call;
    assert ThreadInv(s.shared, s.clock, s.calls, s.threads[t]);
    AnswerCalls(s, c, outcome);
    AnswerThreads(s, t, c, outcome);
    assert LeaderInv(s'.shared, s'.leaders, s'.threads);
  }

  function WithAnswer(s: State, c: nat, outcome: Outcome): seq<Call>
    requires c < |s.calls|
  {
    s.calls[c := s.calls[c].(answer := Some(Answer(s.clock, outcome)))]
  }

  lemma AnswerCalls(s: State, c: nat, outcome: Outcome)
    requires CallInv(s.shared, s.clock, s.calls) && OutcomeInv(s.shared, s.calls) && OrderInv(s.shared, s.calls)
    requires c < |s.calls| && s.calls[c].answer.None?
    ensures CallInv(s.shared, s.clock, WithAnswer(s, c, outcome))
    ensures OutcomeInv(s.shared, WithAnswer(s, c, outcome))
    ensures OrderInv(s.shared, WithAnswer(s, c, outcome))
  {
    var calls' := WithAnswer(s, c, outcome);
    assert CallWellFormed(s.shared, s.clock, s.calls[c]);
    forall r | 0 <= r < |s.shared.issued| && Done(s.shared, r)
      ensures exists d :: 0 <= d < |calls'| && AnsweredWith(calls'[d], r, s.shared.issued[r].outcome.value)
    {
      var d :| 0 <= d < |s.calls| && AnsweredWith(s.calls[d], r, s.shared.issued[r].outcome.value);
      assert calls'[d] == s.calls[d];
    }
    forall d, e | 0 <= d < e < |calls'| && SameId(s.shared, calls'[d], calls'[e])
      ensures Precedes(s.shared, calls'[d], calls'[e])
    {
      assert SameId(s.shared, s.calls[d], s.calls[e]);
    }
  }

  lemma AnswerThreads(s: State, t: nat, c: nat, outcome: Outcome)
    requires ThreadsInv(s.shared, s.clock, s.calls, s.threads) && LeaderInv(s.shared, s.leaders, s.threads)
    requires t in s.threads && s.threads[t].Calling? && s.threads[t].call == c && c < |s.calls|
    ensures ThreadsInv(s.shared, s.clock, WithAnswer(s, c, outcome),
                       s.threads[t := Answered(s.threads[t].req, s.threads[t].receipt, c, outcome)])
  {
    var calls' := WithAnswer(s, c, outcome);
    assert ThreadInv(s.shared, s.clock, s.calls, s.threads[t]);
    forall u | u in s.threads && u != t
      ensures ThreadInv(s.shared, s.clock, calls', s.threads[u])
    {
      assert ThreadInv(s.shared, s.clock, s.calls, s.threads[u]);
    }
  }

  // ----- finishing a receipt

  lemma FinishStep(s: State, t: nat)
    requires Inv(s) && Enabled(s, FinishReceipt(t))
    ensures Inv(Apply(s, FinishReceipt(t)))
  {
    var s' := Apply(s, FinishReceipt(t));
    var Answered(req, r, c, outcome) := s.threads[t];
    assert ThreadInv(s.shared, s.clock, s.calls, s.threads[t]);
    assert Leads(s.threads[t], r);
    FinishTable(s.shared, s.clock, r, outcome);
    FinishCalls(s.shared, s.clock, s.calls, r, c, outcome);
    FinishThreads(s, t);
    FinishLeaders(s, t);
  }

  lemma FinishTable(sh: Shared, clock: int, r: nat, outcome: Outcome)
    requires TableInv(sh, clock) && SuccessionInv(sh, clock) && r < |sh.issued|
    ensures TableInv(Finish(sh, r, outcome), clock) && SuccessionInv(Finish(sh, r, outcome), clock)
  {
  }

  lemma FinishCalls(sh: Shared, clock: int, calls: seq<Call>, r: nat, c: nat, outcome: Outcome)
    requires CallInv(sh, clock, calls) && OutcomeInv(sh, calls) && OrderInv(sh, calls)
    requires r < |sh.issued| && !Done(sh, r) && c < |calls| && AnsweredWith(calls[c], r, outcome)
    ensures CallInv(Finish(sh, r, outcome), clock, calls)
    ensures OutcomeInv(Finish(sh, r, outcome), calls)
    ensures OrderInv(Finish(sh, r, outcome), calls)
  {
    var sh' := Finish(sh, r, outcome);
    forall d, e | 0 <= d < e < |calls| && SameId(sh', calls[d], calls[e])
      ensures Precedes(sh', calls[d], calls[e])
    {
      assert SameId(sh, calls[d], calls[e]);
    }
    forall d | 0 <= d < |calls|
      ensures CallWellFormed(sh', clock, calls[d])
    {
      assert CallWellFormed(sh, clock, calls[d]);
    }
  }

  lemma FinishThreads(s: State, t: nat)
    requires ThreadsInv(s.shared, s.clock, s.calls, s.threads) && LeaderInv(s.shared, s.leaders, s.threads)
    requires Enabled(s, FinishReceipt(t))
    ensures var s' := Apply(s, FinishReceipt(t)); ThreadsInv(s'.shared, s'.clock, s'.calls, s'.threads)
  {
    var s' := Apply(s, FinishReceipt(t));
    assert Leads(s.threads[t], s.threads[t].receipt) && !Done(s.shared, s.threads[t].receipt);
    forall u | u in s'.threads
      ensures ThreadInv(s'.shared, s'.clock, s'.calls, s'.threads[u])
    {
      assert ThreadInv(s.shared, s.clock, s.calls, s.threads[u]);
    }
  }

  lemma FinishLeaders(s: State, t: nat)
    requires LeaderInv(s.shared, s.leaders, s.threads) && Enabled(s, FinishReceipt(t))
    ensures var s' := Apply(s, FinishReceipt(t)); LeaderInv(s'.shared, s'.leaders, s'.threads)
  {
    assert Leads(s.threads[t], s.threads[t].receipt);
  }

  // ----- the steps that touch one thread or the clock only

  lemma ThreadStep(s: State, t: nat, th: Thread)
    requires Inv(s) && ThreadInv(s.shared, s.clock, s.calls, th)
    requires t in s.threads ==> !Leading(s.threads[t])
    requires !Leading(th)
    ensures Inv(s.(threads := s.threads[t := th]))
  {
  }

  lemma TickStep(s: State, elapsed: nat)
    requires Inv(s)
    ensures Inv(s.(clock := s.clock + elapsed))
  {
    forall t | t in s.threads
      ensures ThreadInv(s.shared, s.clock + elapsed, s.calls, s.threads[t])
    {
      assert ThreadInv(s.shared, s.clock, s.calls, s.threads[t]);
    }
    forall c | 0 <= c < |s.calls|
      ensures CallWellFormed(s.shared, s.clock + elapsed, s.calls[c])
    {
      assert CallWellFormed(s.shared, s.clock, s.calls[c]);
    }
  }

  lemma StepInv(s: State, a: Action)
    requires Inv(s) && Enabled(s, a)
    ensures Inv(Apply(s, a))
  {
    match a
    case Admit(t, req) => ThreadStep(s, t, Admitted(req));
    case Tick(elapsed) => TickStep(s, elapsed);
    case ReadClock(t) => ThreadStep(s, t, Timed(s.threads[t].req, s.clock));
    case EnterTable(t) => EnterStep(s, t);
    case CallProvider(t) => CallStep(s, t);
    case ProviderReturns(t, outcome) => AnswerStep(s, t, outcome);
    case FinishReceipt(t) => FinishStep(s, t);
    case Wake(t) =>
      assert ThreadInv(s.shared, s.clock, s.calls, s.threads[t]);
      ThreadStep(s, t, Woken(s.threads[t].req, s.threads[t].receipt));
    case Collect(t) =>
      assert ThreadInv(s.shared, s.clock, s.calls, s.threads[t]);
      ThreadStep(s, t, Returned(s.threads[t].req,
                                Delivered(s.threads[t].receipt, s.shared.issued[s.threads[t].receipt].outcome.value)));
    case CancelWait(t) =>
      assert ThreadInv(s.shared, s.clock, s.calls, s.threads[t]);
      ThreadStep(s, t, Returned(s.threads[t].req, Cancelled(s.threads[t].receipt)));
  }

  lemma {:induction false} RunInv(s: State, run: seq<Action>)
    requires Inv(s) && Legal(s, run)
    ensures Inv(After(s, run))
    decreases |run|
  {
    if run != [] {
      StepInv(s, run[0]);
      RunInv(Apply(s, run[0]), run[1..]);
    }
  }

  lemma ReachableInv(s: State, run: seq<Action>)
    requires Initial(s) && Legal(s, run)
    ensures Inv(After(s, run))
  {
    RunInv(s, run);
  }

  // ----- what holds in every interleaving

  /** Single flight: two provider calls for one id never overlap, and the later one began
      only after the earlier one's receipt had expired. */
  lemma SingleFlight(s0: State, run: seq<Action>, c: nat, d: nat)
    requires Initial(s0) && Legal(s0, run)
    requires var s := After(s0, run); c < d < |s.calls| && SameId(s.shared, s.calls[c], s.calls[d])
    ensures var s := After(s0, run);
            && s.calls[c].answer.Some?
            && s.calls[c].answer.value.at <= s.calls[d].began
            && s.shared.issued[s.calls[c].receipt].expiresAt <= s.calls[d].began
  {
    ReachableInv(s0, run);
    var s := After(s0, run);
    assert Precedes(s.shared, s.calls[c], s.calls[d]);
  }

  /** A caller that got an answer, leader or waiter, got the answer of the one provider call made
      for its receipt, and that call sent this caller's own body. */
  lemma CallersGetTheCallsAnswer(s0: State, run: seq<Action>, t: nat)
    requires Initial(s0) && Legal(s0, run)
    requires var s := After(s0, run); t in s.threads && s.threads[t].Returned? && s.threads[t].verdict.Delivered?
    ensures var s := After(s0, run);
            var Returned(req, Delivered(r, outcome)) := s.threads[t];
            && r < |s.shared.issued| && s.shared.issued[r].id == req.id
            && exists c :: && 0 <= c < |s.calls| && AnsweredWith(s.calls[c], r, outcome) && s.calls[c].body == req.body
                        && forall d | 0 <= d < |s.calls| && s.calls[d].receipt == r :: d == c
  {
    ReachableInv(s0, run);
    var s := After(s0, run);
    var Returned(req, Delivered(r, outcome)) := s.threads[t];
    assert ThreadInv(s.shared, s.clock, s.calls, s.threads[t]);
    var c :| 0 <= c < |s.calls| && AnsweredWith(s.calls[c], r, s.shared.issued[r].outcome.value);
    assert CallWellFormed(s.shared, s.clock, s.calls[c]);
  }

  /** The channel of a receipt is closed once, when the receipt completes, and never again. */
  lemma ClosedExactlyOnce(s0: State, run: seq<Action>, r: nat)
    requires Initial(s0) && Legal(s0, run) && r < |After(s0, run).shared.issued|
    ensures var receipt := After(s0, run).shared.issued[r];
            receipt.closes <= 1 && (receipt.closes == 1 <==> receipt.outcome.Some?)
  {
    ReachableInv(s0, run);
    assert OutcomeInv(After(s0, run).shared, After(s0, run).calls);
  }

  /** A receipt answers for its id until it expires, whether the provider succeeded or failed. */
  lemma RememberedUntilExpiry(s0: State, run: seq<Action>, r: nat)
    requires Initial(s0) && Legal(s0, run) && r < |After(s0, run).shared.issued|
    requires After(s0, run).clock < After(s0, run).shared.issued[r].expiresAt
    ensures var sh := After(s0, run).shared; sh.issued[r].id in sh.table && sh.table[sh.issued[r].id] == r
  {
    ReachableInv(s0, run);
  }

  /** While a call is in flight its receipt is the one in the table, and the body it sends is the
      body that receipt was issued for. */
  lemma InFlightBodyOwnsTheTable(s0: State, run: seq<Action>, c: nat)
    requires Initial(s0) && Legal(s0, run)
    requires c < |After(s0, run).calls| && After(s0, run).calls[c].answer.None?
    ensures var s := After(s0, run);
            var r := s.calls[c].receipt;
            && r < |s.shared.issued| && s.shared.issued[r].id in s.shared.table
            && s.shared.table[s.shared.issued[r].id] == r
            && s.shared.issued[r].fingerprint == Sha256(s.calls[c].body)
  {
    ReachableInv(s0, run);
    var s := After(s0, run);
    assert CallWellFormed(s.shared, s.clock, s.calls[c]);
  }

  /** A request for an id whose receipt is in the table and unexpired is never sent: it shares the
      receipt's answer if its body is the same, and is refused if it is not. */
  lemma ReplayNeverCalls(s0: State, run: seq<Action>, t: nat, r: nat)
    requires Initial(s0) && Legal(s0, run)
    requires var s := After(s0, run); t in s.threads && s.threads[t].Timed?
    requires var s := After(s0, run); r < |s.shared.issued| && s.shared.issued[r].id == s.threads[t].req.id
    requires var s := After(s0, run); s.clock < s.shared.issued[r].expiresAt || s.shared.issued[r].outcome.None?
    ensures var s := After(s0, run);
            var req := s.threads[t].req;
            Enabled(s, EnterTable(t)) &&
            Apply(s, EnterTable(t)).threads[t] ==
              if s.shared.issued[r].fingerprint == Sha256(req.body) then Waiting(req, r)
              else Returned(req, Conflicted(r))
  {
    ReachableInv(s0, run);
    var s := After(s0, run);
    assert ThreadInv(s.shared, s.clock, s.calls, s.threads[t]);
    assert s.shared.table[s.threads[t].req.id] == r;
  }

  /** A thread that becomes a leader does so for an id whose earlier receipts have all finished and
      expired; and when they have all done so by the time it read, it does become one. */
  lemma LeadsWhenAllExpired(s0: State, run: seq<Action>, t: nat)
    requires Initial(s0) && Legal(s0, run)
    requires var s := After(s0, run); t in s.threads && s.threads[t].Timed?
    ensures var s := After(s0, run);
            var issued := s.shared.issued;
            var Timed(req, now) := s.threads[t];
            && Enabled(s, EnterTable(t))
            && (Apply(s, EnterTable(t)).threads[t].Elected? ==>
                  forall q | 0 <= q < |issued| && issued[q].id == req.id ::
                    issued[q].outcome.Some? && issued[q].expiresAt <= s.clock)
            && ((forall q | 0 <= q < |issued| && issued[q].id == req.id ::
                   issued[q].outcome.Some? && issued[q].expiresAt <= now) ==>
                  Apply(s, EnterTable(t)).threads[t].Elected?)
  {
    ReachableInv(s0, run);
    var s := After(s0, run);
    var Timed(req, now) := s.threads[t];
    assert ThreadInv(s.shared, s.clock, s.calls, s.threads[t]);
    SweepKeeps(s.shared, now, s.clock);
    var swept := Sweep(s.shared, now);
    if req.id !in swept.table {
      MissMeansOver(swept, req.id, s.clock);
    }
  }

  /** With a clock just read this is exact: a request is sent if and only if every receipt of its id has an
      answer, be it a failure, and has expired. */
  lemma FreshClockDecides(s0: State, run: seq<Action>, t: nat)
    requires Initial(s0) && Legal(s0, run)
    requires var s := After(s0, run); t in s.threads && s.threads[t].Admitted?
    ensures var s := After(s0, run);
            var issued := s.shared.issued;
            && Legal(s, [ReadClock(t), EnterTable(t)])
            && t in After(s, [ReadClock(t), EnterTable(t)]).threads
            && (After(s, [ReadClock(t), EnterTable(t)]).threads[t].Elected? <==>
                  forall q | 0 <= q < |issued| && issued[q].id == s.threads[t].req.id ::
                    issued[q].outcome.Some? && issued[q].expiresAt <= s.clock)
  {
    ReachableInv(s0, run);
    var s := After(s0, run);
    Append(s0, run, ReadClock(t));
    TwoSteps(s, ReadClock(t), EnterTable(t));
    LeadsWhenAllExpired(s0, run + [ReadClock(t)], t);
  }

  /** Whoever enters leaves a table without any receipt that was answered and had expired when it read the
      clock; of the other ids every one keeps its receipt, and its own id has one. */
  lemma TableAfterEntering(s0: State, run: seq<Action>, t: nat)
    requires Initial(s0) && Legal(s0, run)
    requires var s := After(s0, run); t in s.threads && s.threads[t].Timed?
    ensures var s := After(s0, run);
            var Timed(req, now) := s.threads[t];
            var issued, table := s.shared.issued, s.shared.table;
            && Enabled(s, EnterTable(t))
            && var sh := Apply(s, EnterTable(t)).shared;
            && TableInRange(s.shared) && TableInRange(sh) && req.id in sh.table
            && (forall id | id in sh.table && id != req.id ::
                  id in table && sh.table[id] == table[id])
            && (forall id | id in table && id != req.id ::
                  id in sh.table <==> issued[table[id]].outcome.None? || now < issued[table[id]].expiresAt)
            && (now < req.expiresAt ==>
                  forall id | id in sh.table ::
                    sh.issued[sh.table[id]].outcome.None? || now < sh.issued[sh.table[id]].expiresAt)
  {
    ReachableInv(s0, run);
    var s := After(s0, run);
    assert ThreadInv(s.shared, s.clock, s.calls, s.threads[t]);
    EnterShared(s.shared, s.threads[t].req, s.threads[t].now, s.clock);
  }

  lemma {:induction false} Append(s: State, run: seq<Action>, a: Action)
    requires Legal(s, run) && Enabled(After(s, run), a)
    ensures Legal(s, run + [a]) && After(s, run + [a]) == Apply(After(s, run), a)
    decreases |run|
  {
    if run == [] {
      assert [] + [a] == [a] && [a][1..] == [];
    } else {
      Append(Apply(s, run[0]), run[1..], a);
      assert (run + [a])[1..] == run[1..] + [a];
    }
  }

  // ----- what a receipt and a request owe each other

  /** A receipt has the id, the body and the expiry of the request of the thread that issued it. */
  predicate CarriesRequest(r: Receipt, req: Request) {
    r.id == req.id && r.fingerprint == Sha256(req.body) && r.expiresAt == req.expiresAt
  }

  ghost predicate TermsInv(s: State, since: int) {
    since <= s.clock && TermsHold(s.shared.issued, s.leaders, s.threads, since)
  }

  ghost predicate TermsHold(issued: seq<Receipt>, leaders: seq<nat>, threads: map<nat, Thread>, since: int) {
    && |leaders| == |issued|
    && (forall r | 0 <= r < |leaders| :: leaders[r] in threads && CarriesRequest(issued[r], threads[leaders[r]].req))
    && (forall t | t in threads :: 0 < |threads[t].req.id| <= 128 && since < threads[t].req.expiresAt)
  }

  /** A thread that goes on keeps its request. */
  lemma TermsMove(issued: seq<Receipt>, leaders: seq<nat>, threads: map<nat, Thread>, since: int, t: nat,
                  th: Thread)
    requires TermsHold(issued, leaders, threads, since) && 0 < |th.req.id| <= 128 && since < th.req.expiresAt
    requires t in threads ==> th.req == threads[t].req
    ensures TermsHold(issued, leaders, threads[t := th], since)
  {
  }

  lemma TermsIssue(issued: seq<Receipt>, leaders: seq<nat>, threads: map<nat, Thread>, since: int, t: nat,
                   r: Receipt)
    requires TermsHold(issued, leaders, threads, since) && t in threads && CarriesRequest(r, threads[t].req)
    ensures TermsHold(issued + [r], leaders + [t], threads, since)
  {
  }

  lemma TermsFinish(issued: seq<Receipt>, leaders: seq<nat>, threads: map<nat, Thread>, since: int, r: nat,
                    receipt: Receipt)
    requires TermsHold(issued, leaders, threads, since) && r < |issued|
    requires receipt.id == issued[r].id && receipt.fingerprint == issued[r].fingerprint
    requires receipt.expiresAt == issued[r].expiresAt
    ensures TermsHold(issued[r := receipt], leaders, threads, since)
  {
  }

  lemma StepTerms(s: State, a: Action, since: int)
    requires TermsInv(s, since) && Enabled(s, a)
    ensures TermsInv(Apply(s, a), since)
  {
    var issued, leaders := s.shared.issued, s.leaders;
    var s' := Apply(s, a);
    if a.Tick? {
      return;
    }
    TermsMove(issued, leaders, s.threads, since, a.thread, s'.threads[a.thread]);
    if a.EnterTable? && s'.threads[a.thread].Elected? {
      var req := s.threads[a.thread].req;
      TermsIssue(issued, leaders, s'.threads, since, a.thread,
                 Receipt(req.id, Sha256(req.body), req.expiresAt, None, 0));
    } else if a.FinishReceipt? {
      var r := s.threads[a.thread].receipt;
      TermsFinish(issued, leaders, s'.threads, since, r, s'.shared.issued[r]);
    }
  }

  lemma {:induction false} RunTerms(s: State, run: seq<Action>, since: int)
    requires TermsInv(s, since) && Legal(s, run)
    ensures TermsInv(After(s, run), since)
    decreases |run|
  {
    if run != [] {
      StepTerms(s, run[0], since);
      RunTerms(Apply(s, run[0]), run[1..], since);
    }
  }

  /** In every reachable state each receipt has the terms of the request it was issued for; they never change.  No
      request that had expired before the run began is ever given one. */
  lemma ReceiptsKeepTheirTerms(s0: State, run: seq<Action>, r: nat)
    requires Initial(s0) && Legal(s0, run) && r < |After(s0, run).shared.issued|
    ensures var s := After(s0, run);
            && r < |s.leaders| && s.leaders[r] in s.threads
            && var req := s.threads[s.leaders[r]].req;
            && s.shared.issued[r].id == req.id && 0 < |req.id| <= 128
            && s.shared.issued[r].fingerprint == Sha256(req.body)
            && s0.clock < s.shared.issued[r].expiresAt == req.expiresAt
  {
    RunTerms(s0, run, s0.clock);
  }

  /** From every reachable state, a request with an admissible id, an expiry in the future and an id all of whose
      receipts have an answer and have expired is sent, alone, and gets the provider's answer. */
  lemma AnyFreshRequestIsServed(s0: State, run: seq<Action>, t: nat, req: Request, outcome: Outcome)
    returns (rest: seq<Action>)
    requires Initial(s0) && Legal(s0, run) && t !in After(s0, run).threads
    requires 0 < |req.id| <= 128 && After(s0, run).clock < req.expiresAt
    requires var s := After(s0, run);
             forall q | 0 <= q < |s.shared.issued| && s.shared.issued[q].id == req.id ::
               s.shared.issued[q].outcome.Some? && s.shared.issued[q].expiresAt <= s.clock
    ensures var s := After(s0, run);
            var r := |s.shared.issued|;
            && |rest| == 6 && (forall a | a in rest :: IsStepOf(a, {t})) && Legal(s, rest)
            && After(s, rest).threads == s.threads[t := Returned(req, Delivered(r, outcome))]
            && After(s, rest).calls == s.calls + [Call(r, req.body, s.clock, Some(Answer(s.clock, outcome)))]
            && After(s, rest).shared.issued ==
                 s.shared.issued + [Receipt(req.id, Sha256(req.body), req.expiresAt, Some(outcome), 1)]
  {
    var s := After(s0, run);
    var s1 := Apply(s, Admit(t, req));
    Append(s0, run, Admit(t, req));
    ReachableInv(s0, run + [Admit(t, req)]);
    FreshClockDecides(s0, run + [Admit(t, req)], t);
    rest := EnterAndServe(s1, t, outcome);
    rest := Before(s, Admit(t, req), rest);
  }

  lemma EnterAndServe(s: State, t: nat, outcome: Outcome) returns (rest: seq<Action>)
    requires Inv(s) && t in s.threads && s.threads[t].Admitted? && Legal(s, [ReadClock(t), EnterTable(t)])
    requires var s' := After(s, [ReadClock(t), EnterTable(t)]); t in s'.threads && s'.threads[t].Elected?
    ensures var req, r := s.threads[t].req, |s.shared.issued|;
            && |rest| == 5 && (forall a | a in rest :: IsStepOf(a, {t})) && Legal(s, rest)
            && After(s, rest).threads == s.threads[t := Returned(req, Delivered(r, outcome))]
            && After(s, rest).calls == s.calls + [Call(r, req.body, s.clock, Some(Answer(s.clock, outcome)))]
            && After(s, rest).shared.issued ==
                 s.shared.issued + [Receipt(req.id, Sha256(req.body), req.expiresAt, Some(outcome), 1)]
  {
    var s1 := Apply(s, ReadClock(t));
    TwoSteps(s, ReadClock(t), EnterTable(t));
    StepInv(s, ReadClock(t));
    var s2 := Apply(s1, EnterTable(t));
    EnterFresh(s1, t, s2);
    rest := Serve(s2, t, outcome);
    rest := Before(s1, EnterTable(t), rest);
    rest := Before(s, ReadClock(t), rest);
    SetTwice(s.threads, t, s1.threads[t], s2.threads[t],
             Returned(s.threads[t].req, Delivered(|s.shared.issued|, outcome)));
  }

  lemma SetTwice(threads: map<nat, Thread>, t: nat, a: Thread, b: Thread, c: Thread)
    ensures threads[t := a][t := b][t := c] == threads[t := c]
  {
  }

  /** What becoming a leader changes. */
  lemma EnterFresh(s: State, t: nat, s': State)
    requires Inv(s) && Enabled(s, EnterTable(t)) && s' == Apply(s, EnterTable(t))
    requires t in s'.threads && s'.threads[t].Elected?
    ensures var req, r := s.threads[t].req, |s.shared.issued|;
            && s'.threads == s.threads[t := Elected(req, r)] && s'.calls == s.calls && s'.clock == s.clock
            && s'.shared.issued == s.shared.issued + [Receipt(req.id, Sha256(req.body), req.expiresAt, None, 0)]
  {
    assert ThreadInv(s.shared, s.clock, s.calls, s.threads[t]);
    EnterShared(s.shared, s.threads[t].req, s.threads[t].now, s.clock);
  }

  /** What a leader does by itself. */
  lemma Serve(s: State, t: nat, outcome: Outcome) returns (rest: seq<Action>)
    requires t in s.threads && s.threads[t].Elected? && s.threads[t].receipt < |s.shared.issued|
    ensures var Elected(req, r) := s.threads[t];
            && rest == [CallProvider(t), ProviderReturns(t, outcome), FinishReceipt(t)] && Legal(s, rest)
            && After(s, rest).threads == s.threads[t := Returned(req, Delivered(r, outcome))]
            && After(s, rest).calls == s.calls + [Call(r, req.body, s.clock, Some(Answer(s.clock, outcome)))]
            && After(s, rest).shared.issued ==
                 s.shared.issued[r := s.shared.issued[r].(outcome := Some(outcome),
                                                          closes := s.shared.issued[r].closes + 1)]
  {
    var s1 := Apply(s, CallProvider(t));
    var s2 := Apply(s1, ProviderReturns(t, outcome));
    TwoSteps(s1, ProviderReturns(t, outcome), FinishReceipt(t));
    Prepend(s, CallProvider(t), [ProviderReturns(t, outcome), FinishReceipt(t)]);
    rest := [CallProvider(t)] + [ProviderReturns(t, outcome), FinishReceipt(t)];
    SetTwice(s.threads, t, s1.threads[t], s2.threads[t],
             Returned(s.threads[t].req, Delivered(s.threads[t].receipt, outcome)));
  }

  lemma Before(s: State, a: Action, rest: seq<Action>) returns (run: seq<Action>)
    requires Enabled(s, a) && Legal(Apply(s, a), rest)
    ensures run == [a] + rest && Legal(s, run) && After(s, run) == After(Apply(s, a), rest)
  {
    Prepend(s, a, rest);
    run := [a] + rest;
  }

  /** The action is a step of one of these threads; a tick of the clock is nobody's. */
  predicate IsStepOf(a: Action, who: set<nat>) {
    !a.Tick? && a.thread in who
  }

  /** No lost wake-up: from every reachable state a waiter has a way to its answer of at most five
      steps, all of them its own and its leader's. */
  lemma WaiterCanFinish(s0: State, run: seq<Action>, t: nat) returns (rest: seq<Action>)
    requires Initial(s0) && Legal(s0, run)
    requires t in After(s0, run).threads && After(s0, run).threads[t].Waiting?
    ensures |rest| <= 5 && Legal(After(s0, run), rest)
    ensures var s := After(s0, run);
            var r := s.threads[t].receipt;
            r < |s.leaders| && forall a | a in rest :: IsStepOf(a, {t, s.leaders[r]})
    ensures var th := After(After(s0, run), rest).threads; t in th && th[t].Returned? && th[t].verdict.Delivered?
  {
    ReachableInv(s0, run);
    var s := After(s0, run);
    assert ThreadInv(s.shared, s.clock, s.calls, s.threads[t]);
    var r := s.threads[t].receipt;
    if Done(s.shared, r) {
      assert OutcomeInv(s.shared, s.calls);
      rest := [Wake(t), Collect(t)];
      TwoSteps(s, Wake(t), Collect(t));
    } else {
      rest := LeaderThenWaiter(s, s.leaders[r], t);
    }
  }

  lemma TwoSteps(s: State, a: Action, b: Action)
    requires Enabled(s, a) && Enabled(Apply(s, a), b)
    ensures Legal(s, [a, b]) && After(s, [a, b]) == Apply(Apply(s, a), b)
  {
    assert [a, b][1..] == [b] && [b][1..] == [];
    assert After(Apply(s, a), [b]) == After(Apply(Apply(s, a), b), []);
  }

  lemma Prepend(s: State, a: Action, rest: seq<Action>)
    requires Enabled(s, a) && Legal(Apply(s, a), rest)
    ensures Legal(s, [a] + rest) && After(s, [a] + rest) == After(Apply(s, a), rest)
  {
    assert ([a] + rest)[1..] == rest;
  }

  lemma LeaderThenWaiter(s: State, l: nat, t: nat) returns (rest: seq<Action>)
    requires Inv(s) && t in s.threads && s.threads[t].Waiting?
    requires l in s.threads && Leads(s.threads[l], s.threads[t].receipt)
    ensures |rest| <= (if s.threads[l].Elected? then 5 else if s.threads[l].Calling? then 4 else 3) && Legal(s, rest)
    ensures forall a | a in rest :: IsStepOf(a, {t, l})
    ensures var th := After(s, rest).threads; t in th && th[t].Returned? && th[t].verdict.Delivered?
    decreases if s.threads[l].Elected? then 2 else if s.threads[l].Calling? then 1 else 0
  {
    assert ThreadInv(s.shared, s.clock, s.calls, s.threads[l]);
    assert ThreadInv(s.shared, s.clock, s.calls, s.threads[t]);
    if s.threads[l].Answered? {
      rest := FinishThenCollect(s, l, t);
    } else {
      var a := if s.threads[l].Elected? then CallProvider(l) else ProviderReturns(l, Outcome("", None));
      StepInv(s, a);
      rest := LeaderThenWaiter(Apply(s, a), l, t);
      Prepend(s, a, rest);
      rest := [a] + rest;
    }
  }

  lemma FinishThenCollect(s: State, l: nat, t: nat) returns (rest: seq<Action>)
    requires Inv(s) && t in s.threads && s.threads[t].Waiting?
    requires l in s.threads && s.threads[l].Answered? && s.threads[l].receipt == s.threads[t].receipt
    ensures |rest| == 3 && Legal(s, rest) && forall a | a in rest :: IsStepOf(a, {t, l})
    ensures var th := After(s, rest).threads; t in th && th[t].Returned? && th[t].verdict.Delivered?
  {
    assert ThreadInv(s.shared, s.clock, s.calls, s.threads[l]);
    var a := FinishReceipt(l);
    TwoSteps(Apply(s, a), Wake(t), Collect(t));
    rest := [Wake(t), Collect(t)];
    Prepend(s, a, rest);
    rest := [a] + rest;
  }
}
