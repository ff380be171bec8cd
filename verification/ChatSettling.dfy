/**
 When a chat settles: for which sends, once all of them have been answered, no entry is left in the
 `sending` state, in whatever order replies and echoes arrive.

 Two sends are linked if they share their temporary id or their text, because the reply to one may then
 settle the entry of the other.  What goes wrong needs three sends: two that are linked to one another
 through the third only, with the third not the last of them.
 */
module ChatSettling {
  import opened Wrappers
  import opened Ordering
  import opened ChatMessages

  predicate Linked(a: Sent, b: Sent) {
    a.tempId == b.tempId || a.text == b.text
  }

  /** Before e was sent, f was, which is linked to e, and g, which is linked to f but not to e. */
  predicate Torn(sends: seq<Sent>, e: nat, f: nat, g: nat) {
    && f < e < |sends| && g < e
    && Linked(sends[e], sends[f]) && Linked(sends[f], sends[g]) && !Linked(sends[e], sends[g])
  }

  ghost predicate NeverTorn(sends: seq<Sent>) {
    forall e: nat, f: nat, g: nat :: !Torn(sends, e, f, g)
  }

  lemma PrefixNeverTorn(sends: seq<Sent>, n: nat)
    requires NeverTorn(sends) && n <= |sends|
    ensures NeverTorn(sends[..n])
  {
    forall e: nat, f: nat, g: nat
      ensures !Torn(sends[..n], e, f, g)
    {
      assert !Torn(sends, e, f, g);
    }
  }

  /** If no two texts share a millisecond, links are equal texts, and nothing is torn. */
  lemma OneTextIsNeverTorn(sends: seq<Sent>)
    requires OneTextPerTempId(sends)
    ensures NeverTorn(sends)
  {
  }

  // ----- which send each pending entry belongs to

  predicate Belongs(sends: seq<Sent>, m: Message, owner: Option<nat>) {
    if owner.Some? then owner.value < |sends| && m == Optimistic(sends[owner.value].tempId, sends[owner.value].text)
    else !m.pending && m.id > 0
  }

  /** Pending entries stand in the order in which they were sent. */
  ghost predicate Owned(s: State, owner: seq<Option<nat>>) {
    && |owner| == |s.list|
    && (forall i | 0 <= i < |owner| :: Belongs(s.sends, s.list[i], owner[i]))
    && (forall i, j | 0 <= i < j < |owner| && owner[i].Some? && owner[j].Some? :: owner[i].value < owner[j].value)
  }

  /** The sends whose entries are pending. */
  function Waiting(owner: seq<Option<nat>>): set<nat> {
    set i | 0 <= i < |owner| && owner[i].Some? :: owner[i].value
  }

  /** Whether the entry of send k is one that the event may settle. */
  predicate Claims(sends: seq<Sent>, e: Event, k: nat) {
    k < |sends| &&
    match e
    case Send(_) => false
    case Reply(r, _) => r < |sends| && Linked(sends[r], sends[k])
    case Echo(msg) => msg.out && sends[k].text == msg.text
  }

  /** The event settles the earliest pending entry that it may, if there is one. */
  ghost predicate Takes(sends: seq<Sent>, e: Event, before: set<nat>, after: set<nat>, taken: Option<nat>) {
    match taken
    case None => after == before && forall k | k in before :: !Claims(sends, e, k)
    case Some(k) =>
      && after == before - {k} && k in before && Claims(sends, e, k)
      && forall j | j in before && Claims(sends, e, j) :: k <= j
  }

  lemma SendOwned(s: State, owner: seq<Option<nat>>, what: Sent) returns (owner': seq<Option<nat>>)
    requires Owned(s, owner) && Legal(s, Send(what))
    ensures Owned(Apply(s, Send(what)), owner') && Waiting(owner') == Waiting(owner) + {|s.sends|}
  {
    owner' := owner + [Some(|s.sends|)];
    assert owner'[|owner|] == Some(|s.sends|);
    assert forall i | 0 <= i < |owner| :: owner'[i] == owner[i];
    assert forall i | 0 <= i < |owner| :: Belongs(s.sends, s.list[i], owner[i]);
  }

  /** Of the entries that pass a test that only pending ones pass, findIndex finds the earliest sent. */
  lemma FoundIsEarliest(s: State, owner: seq<Option<nat>>, e: Event, i: nat)
    requires Owned(s, owner) && i < |s.list| && owner[i].Some? && Claims(s.sends, e, owner[i].value)
    requires forall j | 0 <= j < i && owner[j].Some? :: !Claims(s.sends, e, owner[j].value)
    ensures Takes(s.sends, e, Waiting(owner), Waiting(owner) - {owner[i].value}, owner[i])
  {
    forall k | k in Waiting(owner) && Claims(s.sends, e, k)
      ensures owner[i].value <= k
    {
      var j :| 0 <= j < |owner| && owner[j] == Some(k);
      assert i <= j;
    }
  }

  lemma OverwriteOwned(s: State, owner: seq<Option<nat>>, i: nat, msg: Message, s': State)
    returns (owner': seq<Option<nat>>)
    requires Owned(s, owner) && i < |s.list| && owner[i].Some? && FromServer(msg) && s'.sends == s.sends
    requires s'.list == s.list[i := msg]
    ensures Owned(s', owner') && Waiting(owner') == Waiting(owner) - {owner[i].value}
  {
    owner' := owner[i := None];
    assert forall j | 0 <= j < |owner| :: Belongs(s.sends, s.list[j], owner[j]);
    assert forall j | 0 <= j < |owner| && j != i :: owner[j] == owner'[j];
  }

  lemma SpliceOwned(s: State, owner: seq<Option<nat>>, i: nat, s': State) returns (owner': seq<Option<nat>>)
    requires Owned(s, owner) && i < |s.list| && owner[i].Some? && s'.sends == s.sends && s'.list == Splice(s.list, i)
    ensures Owned(s', owner') && Waiting(owner') == Waiting(owner) - {owner[i].value}
  {
    owner' := owner[..i] + owner[i + 1..];
    forall j | 0 <= j < |owner'|
      ensures Belongs(s'.sends, s'.list[j], owner'[j])
    {
      var was := if j < i then j else j + 1;
      assert Belongs(s.sends, s.list[was], owner[was]);
    }
    SpliceWaiting(owner, i);
  }

  lemma SpliceWaiting(owner: seq<Option<nat>>, i: nat)
    requires i < |owner| && owner[i].Some?
    requires forall j, k | 0 <= j < k < |owner| && owner[j].Some? && owner[k].Some? :: owner[j].value < owner[k].value
    ensures Waiting(owner[..i] + owner[i + 1..]) == Waiting(owner) - {owner[i].value}
  {
    var owner' := owner[..i] + owner[i + 1..];
    forall k | k in Waiting(owner) - {owner[i].value}
      ensures k in Waiting(owner')
    {
      var j :| 0 <= j < |owner| && owner[j] == Some(k);
      assert owner'[if j < i then j else j - 1] == Some(k);
    }
    forall k | k in Waiting(owner')
      ensures k in Waiting(owner) - {owner[i].value}
    {
      var j :| 0 <= j < |owner'| && owner'[j] == Some(k);
      var was := if j < i then j else j + 1;
      assert owner[was] == Some(k) && was != i;
    }
  }

  lemma AppendOwned(s: State, owner: seq<Option<nat>>, msg: Message, s': State) returns (owner': seq<Option<nat>>)
    requires Owned(s, owner) && FromServer(msg) && s'.sends == s.sends && s'.list == s.list + [msg]
    ensures Owned(s', owner') && Waiting(owner') == Waiting(owner)
  {
    owner' := owner + [None];
    assert owner'[|owner|] == None && forall j | 0 <= j < |owner| :: owner'[j] == owner[j];
    assert forall j | 0 <= j < |owner| :: Belongs(s.sends, s.list[j], owner[j]);
  }

  lemma ReplyOwned(s: State, owner: seq<Option<nat>>, r: nat, msg: Message)
    returns (owner': seq<Option<nat>>, taken: Option<nat>)
    requires ListInv(s) && Owned(s, owner) && Legal(s, Reply(r, msg))
    ensures Owned(Apply(s, Reply(r, msg)), owner') &&
            Takes(s.sends, Reply(r, msg), Waiting(owner), Waiting(owner'), taken)
  {
    var e, s' := Reply(r, msg), Apply(s, Reply(r, msg));
    var i := ReplyIndex(s.list, s.sends[r].tempId, s.sends[r].text);
    ReplyFinds(s, owner, r, msg);
    if i >= 0 {
      taken := owner[i];
      FoundIsEarliest(s, owner, e, i);
      if HasId(s.list, msg.id) {
        owner' := SpliceOwned(s, owner, i, s');
      } else {
        owner' := OverwriteOwned(s, owner, i, msg, s');
      }
    } else {
      taken := None;
      if HasId(s.list, msg.id) {
        owner' := owner;
      } else {
        owner' := AppendOwned(s, owner, msg, s');
      }
    }
  }

  /** The test in sendMessage finds entries of linked sends only: a temporary id is negative, so it is no
      delivered message's. */
  lemma ReplyFinds(s: State, owner: seq<Option<nat>>, r: nat, msg: Message)
    requires ListInv(s) && Owned(s, owner) && Legal(s, Reply(r, msg))
    ensures var i := ReplyIndex(s.list, s.sends[r].tempId, s.sends[r].text);
            && (i >= 0 ==> owner[i].Some? && Claims(s.sends, Reply(r, msg), owner[i].value))
            && forall j | 0 <= j < (if i >= 0 then i else |owner|) && owner[j].Some? ::
                 !Claims(s.sends, Reply(r, msg), owner[j].value)
  {
    var i := ReplyIndex(s.list, s.sends[r].tempId, s.sends[r].text);
    if i >= 0 {
      assert Belongs(s.sends, s.list[i], owner[i]);
    }
    forall j | 0 <= j < (if i >= 0 then i else |owner|) && owner[j].Some?
      ensures !Claims(s.sends, Reply(r, msg), owner[j].value)
    {
      assert Belongs(s.sends, s.list[j], owner[j]);
    }
  }

  lemma EchoOwned(s: State, owner: seq<Option<nat>>, msg: Message)
    returns (owner': seq<Option<nat>>, taken: Option<nat>)
    requires Owned(s, owner) && Legal(s, Echo(msg))
    ensures Owned(Apply(s, Echo(msg)), owner') && Takes(s.sends, Echo(msg), Waiting(owner), Waiting(owner'), taken)
  {
    var e, s' := Echo(msg), Apply(s, Echo(msg));
    var i := if msg.out then EchoIndex(s.list, msg.text) else -1;
    assert forall j | 0 <= j < |owner| :: Belongs(s.sends, s.list[j], owner[j]);
    if i >= 0 {
      taken := owner[i];
      FoundIsEarliest(s, owner, e, i);
      owner' := OverwriteOwned(s, owner, i, msg, s');
    } else {
      taken := None;
      if HasId(s.list, msg.id) {
        owner' := owner;
      } else {
        owner' := AppendOwned(s, owner, msg, s');
      }
    }
  }

  // ----- never torn: every reply is worth an entry

  /** e and the earlier sends linked to it. */
  function Reach(sends: seq<Sent>, e: nat): set<nat>
    requires e < |sends|
  {
    set k | 0 <= k <= e && Linked(sends[e], sends[k])
  }

  /** The sends not answered yet. */
  function Open(s: State): set<nat> {
    set k | 0 <= k < |s.sends| && k !in s.answered
  }

  /** For every pending entry, no more entries are pending among the sends it reaches than replies are due. */
  ghost predicate Covered(sends: seq<Sent>, waiting: set<nat>, due: set<nat>) {
    forall e | e in waiting :: e < |sends| && |waiting * Reach(sends, e)| <= |due * Reach(sends, e)|
  }

  /** No send before n is linked to a member of `part` without being one. */
  predicate ClosedBelow(sends: seq<Sent>, part: set<nat>, n: nat)
    requires n <= |sends|
  {
    && (forall a | a in part :: a < n)
    && forall a, b: nat | a in part && b < n && Linked(sends[a], sends[b]) :: b in part
  }

  /** Then the same holds of any part of the sends that is closed under links. */
  lemma {:induction false} CoveredPart(sends: seq<Sent>, waiting: set<nat>, due: set<nat>, part: set<nat>, n: nat)
    requires NeverTorn(sends) && Covered(sends, waiting, due) && n <= |sends| && ClosedBelow(sends, part, n)
    ensures |waiting * part| <= |due * part|
  {
    if n == 0 {
      assert part == {};
    } else {
      var z := n - 1;
      if z !in part {
        CoveredPart(sends, waiting, due, part, z);
      } else if z !in waiting {
        CoveredPart(sends, waiting, due, part - {z}, z);
        assert waiting * part == waiting * (part - {z});
        CardinalityMonotone(due * (part - {z}), due * part);
      } else {
        RestIsClosed(sends, part, z);
        CoveredPart(sends, waiting, due, part - Reach(sends, z), z);
        SplitCount(waiting, part, Reach(sends, z));
        SplitCount(due, part, Reach(sends, z));
      }
    }
  }

  lemma RestIsClosed(sends: seq<Sent>, part: set<nat>, z: nat)
    requires NeverTorn(sends) && z < |sends| && ClosedBelow(sends, part, z + 1) && z in part
    ensures Reach(sends, z) <= part && ClosedBelow(sends, part - Reach(sends, z), z)
  {
    forall a, b: nat | a in part - Reach(sends, z) && b < z && Linked(sends[a], sends[b])
      ensures b in part - Reach(sends, z)
    {
      assert !Torn(sends, z, b, a);
    }
  }

  lemma SplitCount(x: set<nat>, part: set<nat>, inner: set<nat>)
    requires inner <= part
    ensures |x * part| == |x * inner| + |x * (part - inner)|
  {
    assert x * part == x * inner + x * (part - inner);
  }

  lemma SendCovered(sends: seq<Sent>, what: Sent, waiting: set<nat>, due: set<nat>)
    requires NeverTorn(sends + [what]) && Covered(sends, waiting, due)
    requires forall k | k in due :: k < |sends|
    ensures Covered(sends + [what], waiting + {|sends|}, due + {|sends|})
  {
    var n, longer := |sends|, sends + [what];
    forall e | e in waiting + {n}
      ensures |(waiting + {n}) * Reach(longer, e)| <= |(due + {n}) * Reach(longer, e)|
    {
      if e == n {
        NewestCovered(sends, what, waiting, due);
      } else {
        OlderCovered(sends, what, waiting, due, e);
      }
    }
  }

  lemma OlderCovered(sends: seq<Sent>, what: Sent, waiting: set<nat>, due: set<nat>, e: nat)
    requires e < |sends| && |waiting * Reach(sends, e)| <= |due * Reach(sends, e)|
    ensures var n, reach := |sends|, Reach(sends + [what], e);
            |(waiting + {n}) * reach| <= |(due + {n}) * reach|
  {
    var n := |sends|;
    assert Reach(sends + [what], e) == Reach(sends, e);
    assert (waiting + {n}) * Reach(sends, e) == waiting * Reach(sends, e);
    assert (due + {n}) * Reach(sends, e) == due * Reach(sends, e);
  }

  lemma NewestCovered(sends: seq<Sent>, what: Sent, waiting: set<nat>, due: set<nat>)
    requires NeverTorn(sends + [what]) && Covered(sends, waiting, due)
    requires forall k | k in due :: k < |sends|
    ensures var n, reach := |sends|, Reach(sends + [what], |sends|);
            |(waiting + {n}) * reach| <= |(due + {n}) * reach|
  {
    var n, longer := |sends|, sends + [what];
    assert longer[..n] == sends;
    PrefixNeverTorn(longer, n);
    var part := Reach(longer, n) - {n};
    NewestIsClosed(sends, what);
    CoveredPart(sends, waiting, due, part, n);
    WithNewest(waiting, n, Reach(longer, n));
    WithNewest(due, n, Reach(longer, n));
  }

  lemma WithNewest(x: set<nat>, n: nat, reach: set<nat>)
    requires n in reach && n !in x
    ensures |(x + {n}) * reach| == |x * (reach - {n})| + 1
  {
    assert (x + {n}) * reach == x * (reach - {n}) + {n};
  }

  lemma NewestIsClosed(sends: seq<Sent>, what: Sent)
    requires NeverTorn(sends + [what])
    ensures ClosedBelow(sends, Reach(sends + [what], |sends|) - {|sends|}, |sends|)
  {
    var n, longer := |sends|, sends + [what];
    forall a, b: nat | a in Reach(longer, n) - {n} && b < n && Linked(sends[a], sends[b])
      ensures b in Reach(longer, n)
    {
      assert !Torn(longer, n, a, b);
    }
  }

  lemma ReplyCovered(sends: seq<Sent>, r: nat, msg: Message, waiting: set<nat>, due: set<nat>, left: set<nat>,
                     taken: Option<nat>)
    requires NeverTorn(sends) && Covered(sends, waiting, due) && r in due && r < |sends|
    requires Takes(sends, Reply(r, msg), waiting, left, taken)
    ensures Covered(sends, left, due - {r})
  {
    forall e | e in left
      ensures |left * Reach(sends, e)| <= |(due - {r}) * Reach(sends, e)|
    {
      assert e in waiting;
      ReplyPaysAt(sends, r, msg, waiting, left, taken, e);
      var reach := Reach(sends, e);
      if r in reach {
        assert (due - {r}) * reach == due * reach - {r};
      } else {
        assert (due - {r}) * reach == due * reach;
      }
    }
  }

  /** A reply to a send that a pending entry reaches takes an entry that it reaches. */
  lemma ReplyPaysAt(sends: seq<Sent>, r: nat, msg: Message, waiting: set<nat>, left: set<nat>, taken: Option<nat>,
                    e: nat)
    requires NeverTorn(sends) && r < |sends| && e < |sends| && e in left
    requires Takes(sends, Reply(r, msg), waiting, left, taken)
    ensures |left * Reach(sends, e)| <= |waiting * Reach(sends, e)| - if r in Reach(sends, e) then 1 else 0
  {
    var reach := Reach(sends, e);
    if r in reach {
      assert Claims(sends, Reply(r, msg), e);
      assert !Torn(sends, e, r, taken.value);
      assert left * reach == waiting * reach - {taken.value};
    } else {
      CardinalityMonotone(left * reach, waiting * reach);
    }
  }

  lemma EchoCovered(sends: seq<Sent>, waiting: set<nat>, due: set<nat>, left: set<nat>)
    requires Covered(sends, waiting, due) && left <= waiting
    ensures Covered(sends, left, due)
  {
    forall e | e in left
      ensures |left * Reach(sends, e)| <= |due * Reach(sends, e)|
    {
      CardinalityMonotone(left * Reach(sends, e), waiting * Reach(sends, e));
    }
  }

  lemma StepCovered(s: State, owner: seq<Option<nat>>, e: Event) returns (owner': seq<Option<nat>>)
    requires ListInv(s) && Legal(s, e) && NeverTorn(Apply(s, e).sends)
    requires Owned(s, owner) && Covered(s.sends, Waiting(owner), Open(s))
    ensures Owned(Apply(s, e), owner') && Covered(Apply(s, e).sends, Waiting(owner'), Open(Apply(s, e)))
  {
    OpenAfter(s, e);
    match e
    case Send(what) =>
      owner' := SendOwned(s, owner, what);
      SendCovered(s.sends, what, Waiting(owner), Open(s));
    case Reply(r, msg) =>
      var taken;
      owner', taken := ReplyOwned(s, owner, r, msg);
      ReplyCovered(s.sends, r, msg, Waiting(owner), Open(s), Waiting(owner'), taken);
    case Echo(msg) =>
      var taken;
      owner', taken := EchoOwned(s, owner, msg);
      EchoCovered(s.sends, Waiting(owner), Open(s), Waiting(owner'));
  }

  lemma OpenAfter(s: State, e: Event)
    requires ListInv(s) && Legal(s, e)
    ensures match e
            case Send(_) => Open(Apply(s, e)) == Open(s) + {|s.sends|}
            case Reply(r, _) => r in Open(s) && Open(Apply(s, e)) == Open(s) - {r}
            case Echo(_) => Open(Apply(s, e)) == Open(s)
  {
  }

  lemma {:induction false} RunCovered(run: seq<Event>) returns (owner: seq<Option<nat>>)
    requires Possible(run) && NeverTorn(After(run).sends)
    ensures Owned(After(run), owner) && Covered(After(run).sends, Waiting(owner), Open(After(run)))
  {
    if run == [] {
      owner := [];
    } else {
      var init, e := run[..|run| - 1], run[|run| - 1];
      RunListInv(init);
      SendsPrefix(After(init), e);
      var before := RunCovered(init);
      owner := StepCovered(After(init), before, e);
    }
  }

  lemma SendsPrefix(s: State, e: Event)
    requires Legal(s, e) && NeverTorn(Apply(s, e).sends)
    ensures NeverTorn(s.sends)
  {
    PrefixNeverTorn(Apply(s, e).sends, |s.sends|);
    assert Apply(s, e).sends[..|s.sends|] == s.sends;
  }

  /** What the user is owed once everything is answered: nothing pending, and on the screen exactly the
      delivered messages, each once. */
  ghost predicate SettledView(s: State) {
    var shown := Rendered(s.list);
    && (forall i | 0 <= i < |s.list| :: !s.list[i].pending)
    && (forall id :: HasId(shown, id) <==> id in s.delivered)
    && (forall i, j | 0 <= i < j < |shown| :: shown[i].id != shown[j].id)
  }

  lemma WaitingMeansDue(sends: seq<Sent>, waiting: set<nat>, due: set<nat>)
    requires Covered(sends, waiting, due) && waiting != {}
    ensures due != {}
  {
    var e :| e in waiting;
    assert e in waiting * Reach(sends, e);
    assert |due * Reach(sends, e)| > 0;
  }

  lemma OwnersWait(s: State, owner: seq<Option<nat>>)
    requires Owned(s, owner)
    ensures forall i | 0 <= i < |s.list| && s.list[i].pending :: exists e :: e in Waiting(owner)
  {
    forall i | 0 <= i < |s.list| && s.list[i].pending
      ensures exists e :: e in Waiting(owner)
    {
      assert Belongs(s.sends, s.list[i], owner[i]);
      assert owner[i].value in Waiting(owner);
    }
  }

  /** Once every send has been answered, and no three of them are torn, the chat has settled. */
  lemma SettledWhenAllAnswered(run: seq<Event>)
    requires Possible(run) && NeverTorn(After(run).sends) && AllAnswered(After(run))
    ensures SettledView(After(run))
  {
    var s := After(run);
    RunListInv(run);
    RenderedOnce(s.list);
    var owner := RunCovered(run);
    OwnersWait(s, owner);
    if Waiting(owner) != {} {
      WaitingMeansDue(s.sends, Waiting(owner), Open(s));
    }
  }

  // ----- torn: a run that leaves an entry pending

  /** Some pending entry with this temporary id is on the screen. */
  ghost predicate ShowsSending(s: State, tempId: int) {
    var shown := Rendered(s.list);
    exists j :: 0 <= j < |shown| && shown[j].pending && shown[j].id == tempId
  }

  lemma PendingStaysRendered(s: State, i: nat)
    requires ListInv(s) && i < |s.list| && s.list[i].pending
    ensures ShowsSending(s, s.list[i].id)
  {
    RenderedOnce(s.list);
    assert HasId(s.list, s.list[i].id);
    assert HasId(Rendered(s.list), s.list[i].id);
    var j :| 0 <= j < |Rendered(s.list)| && Rendered(s.list)[j].id == s.list[i].id;
    RenderedFromList(s.list, j);
  }

  lemma {:induction false} RenderedFromList(list: List, j: nat)
    requires j < |Rendered(list)|
    ensures exists i :: 0 <= i < |list| && list[i] == Rendered(list)[j]
  {
    var n := |list| - 1;
    if j < |Rendered(list[..n])| {
      RenderedFromList(list[..n], j);
      var i :| 0 <= i < n && list[..n][i] == Rendered(list[..n])[j];
      assert list[i] == Rendered(list)[j];
    } else {
      assert list[n] == Rendered(list)[j];
    }
  }

  /** A run, whose entries belong to whom, which sends it has answered, and whose entries are pending. */
  datatype Point = Point(run: seq<Event>, owner: seq<Option<nat>>, answered: set<nat>, waiting: set<nat>)

  /** All of `sends` have been sent by now, and the point describes where the run stands. */
  ghost predicate Stands(sends: seq<Sent>, p: Point) {
    && Possible(p.run) && After(p.run).sends == sends && After(p.run).answered == p.answered
    && Owned(After(p.run), p.owner) && Waiting(p.owner) == p.waiting
  }

  function Below(n: nat): (s: set<nat>)
    ensures forall k: nat :: k in s <==> k < n
  {
    if n == 0 then {} else Below(n - 1) + {n - 1}
  }

  lemma SendNext(sends: seq<Sent>, p: Point, what: Sent) returns (p': Point)
    requires Stands(sends, p) && what.tempId < 0 && !IsBlank(what.text)
    ensures Stands(sends + [what], p') && p'.answered == p.answered && p'.waiting == p.waiting + {|sends|}
  {
    AfterOne(p.run, Send(what));
    var owner := SendOwned(After(p.run), p.owner, what);
    p' := Point(p.run + [Send(what)], owner, p.answered, Waiting(owner));
  }

  lemma {:induction false} SendAll(schedule: seq<Sent>, n: nat) returns (p: Point)
    requires SendableAll(schedule) && n <= |schedule|
    ensures Stands(schedule[..n], p) && p.answered == {} && p.waiting == Below(n)
  {
    if n == 0 {
      p := Point([], [], {}, {});
    } else {
      var before := SendAll(schedule, n - 1);
      p := SendNext(schedule[..n - 1], before, schedule[n - 1]);
      assert schedule[..n] == schedule[..n - 1] + [schedule[n - 1]];
    }
  }

  /** Send r is answered with a message of its own, which settles the earliest pending entry linked to it. */
  lemma Answer(sends: seq<Sent>, p: Point, r: nat) returns (p': Point, taken: Option<nat>)
    requires Stands(sends, p) && r < |sends| && r !in p.answered
    ensures Stands(sends, p') && p'.answered == p.answered + {r}
    ensures taken.None? ==>
              p'.waiting == p.waiting && forall k | k in p.waiting && k < |sends| :: !Linked(sends[r], sends[k])
    ensures taken.Some? ==>
              var k := taken.value;
              && p'.waiting == p.waiting - {k} && k in p.waiting && k < |sends| && Linked(sends[r], sends[k])
              && forall j | j in p.waiting && j < |sends| && Linked(sends[r], sends[j]) :: k <= j
  {
    var e := Reply(r, Message(r + 1, sends[r].text, true, false));
    RunListInv(p.run);
    AfterOne(p.run, e);
    var owner;
    owner, taken := ReplyOwned(After(p.run), p.owner, r, e.msg);
    p' := Point(p.run + [e], owner, p.answered + {r}, Waiting(owner));
    forall k | k in p.waiting && k < |sends| && Linked(sends[r], sends[k])
      ensures Claims(sends, e, k)
    {
    }
  }

  /** The sends before e that are linked to it. */
  predicate Near(sends: seq<Sent>, e: nat, k: nat)
    requires e < |sends|
  {
    k < e && Linked(sends[e], sends[k])
  }

  function NearIn(sends: seq<Sent>, e: nat, b: nat, c: nat): (s: set<nat>)
    requires e < |sends| && c <= e
    ensures forall k :: k in s <==> b <= k < c && Near(sends, e, k)
  {
    set k | b <= k < c && Near(sends, e, k)
  }

  /** An entry that a reply to e would settle is pending among the first b. */
  ghost predicate SomeNear(sends: seq<Sent>, e: nat, waiting: set<nat>, b: nat)
    requires e < |sends|
  {
    exists q: nat :: q in waiting && q < b && Near(sends, e, q)
  }

  /** k is linked to an earlier send that e is not linked to. */
  ghost predicate Outward(sends: seq<Sent>, e: nat, k: nat)
    requires e < |sends| && k <= e
  {
    exists h: nat :: h < k && Linked(sends[k], sends[h]) && !Near(sends, e, h)
  }

  /** What answering `who`, sends near e among b..c, in the order in which they were sent, achieves. */
  ghost predicate Swept(sends: seq<Sent>, e: nat, p: Point, p': Point, who: set<nat>, b: nat, c: nat)
    requires e < |sends| && b <= c <= e && forall k | k in who :: k <= e
  {
    && Stands(sends, p') && p'.answered == p.answered + who
    && (forall k: nat | c <= k <= e :: k in p'.waiting)
    && (SomeNear(sends, e, p.waiting, b) || NearIn(sends, e, b, c) - who != {} ==> SomeNear(sends, e, p'.waiting, c))
    && ((forall k | k in who :: !Outward(sends, e, k)) ==>
          && (forall k | k in p.waiting && !Near(sends, e, k) :: k in p'.waiting)
          && (NearIn(sends, e, b, c) <= who && !SomeNear(sends, e, p.waiting, b) ==>
               !SomeNear(sends, e, p'.waiting, c)))
  }

  /** Each finds its own entry still pending, so what it takes is no later than itself. */
  lemma {:induction false} Sweep(sends: seq<Sent>, e: nat, p: Point, who: set<nat>, b: nat, c: nat) returns (p': Point)
    requires Stands(sends, p) && e + 1 == |sends| && b <= c <= e
    requires forall k | k in who :: b <= k < c && Near(sends, e, k) && k !in p.answered
    requires forall k: nat | b <= k <= e :: k in p.waiting
    ensures Swept(sends, e, p, p', who, b, c)
    decreases c
  {
    if b == c {
      p' := p;
    } else {
      var z := c - 1;
      var p1 := Sweep(sends, e, p, who - {z}, b, z);
      if z in who {
        p' := SweepOne(sends, e, p1, z);
        SweptAnswered(sends, e, p, p1, p', who, b, z);
      } else {
        p' := p1;
        assert who - {z} == who;
        SweptPassed(sends, e, p, p', who, b, z);
      }
    }
  }

  /** z was passed over, so if it is near e, its entry is there to spare. */
  lemma SweptPassed(sends: seq<Sent>, e: nat, p: Point, p': Point, who: set<nat>, b: nat, z: nat)
    requires b <= z < e < |sends| && (forall k | k in who :: k < z) && Swept(sends, e, p, p', who, b, z)
    ensures Swept(sends, e, p, p', who, b, z + 1)
  {
    assert z in p'.waiting;
    if Near(sends, e, z) {
      assert SomeNear(sends, e, p'.waiting, z + 1);
      assert z in NearIn(sends, e, b, z + 1) && z !in who;
    } else {
      assert NearIn(sends, e, b, z + 1) == NearIn(sends, e, b, z);
      assert SomeNear(sends, e, p'.waiting, z + 1) <==> SomeNear(sends, e, p'.waiting, z) by {
        SomeNearLonger(sends, e, p'.waiting, z);
      }
    }
  }

  lemma SomeNearLonger(sends: seq<Sent>, e: nat, waiting: set<nat>, z: nat)
    requires z < e < |sends|
    ensures SomeNear(sends, e, waiting, z + 1) <==>
            SomeNear(sends, e, waiting, z) || (z in waiting && Near(sends, e, z))
  {
    if SomeNear(sends, e, waiting, z) {
      var q: nat :| q in waiting && q < z && Near(sends, e, q);
      assert q < z + 1;
    }
  }

  lemma SweptAnswered(sends: seq<Sent>, e: nat, p: Point, p1: Point, p': Point, who: set<nat>, b: nat, z: nat)
    requires b <= z < e < |sends| && z in who && (forall k | k in who :: k <= z) && Near(sends, e, z)
    requires Swept(sends, e, p, p1, who - {z}, b, z) && SweptOne(sends, e, p1, p', z)
    ensures Swept(sends, e, p, p', who, b, z + 1)
  {
    AnsweredNear(sends, e, p.answered, who, b, z);
    assert forall k | k in who - {z} :: k in who;
  }

  lemma AnsweredNear(sends: seq<Sent>, e: nat, answered: set<nat>, who: set<nat>, b: nat, z: nat)
    requires b <= z < e < |sends| && z in who && Near(sends, e, z)
    ensures answered + who == answered + (who - {z}) + {z}
    ensures NearIn(sends, e, b, z + 1) - who == NearIn(sends, e, b, z) - (who - {z})
    ensures NearIn(sends, e, b, z + 1) <= who <==> NearIn(sends, e, b, z) <= who - {z}
  {
    assert NearIn(sends, e, b, z + 1) == NearIn(sends, e, b, z) + {z};
  }

  ghost predicate SweptOne(sends: seq<Sent>, e: nat, p: Point, p': Point, z: nat)
    requires z < e < |sends|
  {
    && Stands(sends, p') && p'.answered == p.answered + {z}
    && (forall k: nat | z + 1 <= k <= e :: k in p'.waiting)
    && (SomeNear(sends, e, p.waiting, z) ==> SomeNear(sends, e, p'.waiting, z + 1))
    && (!Outward(sends, e, z) ==>
          && (forall k | k in p.waiting && !Near(sends, e, k) :: k in p'.waiting)
          && (!SomeNear(sends, e, p.waiting, z) ==> !SomeNear(sends, e, p'.waiting, z + 1)))
  }

  lemma SweepOne(sends: seq<Sent>, e: nat, p: Point, z: nat) returns (p': Point)
    requires Stands(sends, p) && e + 1 == |sends| && Near(sends, e, z) && z !in p.answered
    requires forall k: nat | z <= k <= e :: k in p.waiting
    ensures SweptOne(sends, e, p, p', z)
  {
    var taken;
    p', taken := Answer(sends, p, z);
    assert z in p.waiting && Linked(sends[z], sends[z]);
    var k := taken.value;
    if SomeNear(sends, e, p.waiting, z) {
      var q: nat :| q in p.waiting && q < z && Near(sends, e, q);
      assert (if k == q then z else q) in p'.waiting;
    }
  }

  /** Answers sends that are not linked to e, in any order. */
  lemma {:induction false} AnswerFar(sends: seq<Sent>, e: nat, p: Point, rest: set<nat>) returns (p': Point)
    requires Stands(sends, p) && e < |sends| && e in p.waiting
    requires forall k | k in rest :: k < |sends| && !Linked(sends[k], sends[e]) && k !in p.answered
    ensures Stands(sends, p') && p'.answered == p.answered + rest && e in p'.waiting
    decreases |rest|
  {
    if rest == {} {
      p' := p;
    } else {
      var r :| r in rest;
      var p1, taken := Answer(sends, p, r);
      p' := AnswerFar(sends, e, p1, rest - {r});
      assert p.answered + rest == p.answered + {r} + (rest - {r});
    }
  }

  lemma {:induction false} FirstOutward(sends: seq<Sent>, e: nat, k: nat) returns (n: nat)
    requires e < |sends| && Near(sends, e, k) && Outward(sends, e, k)
    ensures n <= k && Near(sends, e, n) && Outward(sends, e, n)
    ensures forall m: nat | m < n && Near(sends, e, m) :: !Outward(sends, e, m)
  {
    if m: nat :| m < k && Near(sends, e, m) && Outward(sends, e, m) {
      n := FirstOutward(sends, e, m);
    } else {
      n := k;
    }
  }

  /** If some send near e reaches out to an earlier one that is not, the first of those does so when its
      turn comes, all nearer entries being settled; from then on there is an entry near e to spare. */
  lemma OutwardDrain(sends: seq<Sent>, e: nat, start: Point, k: nat) returns (p: Point)
    requires Stands(sends, start) && e + 1 == |sends| && start.answered == {} && start.waiting == Below(e + 1)
    requires Near(sends, e, k) && Outward(sends, e, k)
    ensures Stands(sends, p) && p.answered == NearIn(sends, e, 0, e) + {e} && e in p.waiting
  {
    var n := FirstOutward(sends, e, k);
    var p1 := DrainBefore(sends, e, start, n);
    var p2 := TakeOutward(sends, e, p1, n);
    p := DrainAfter(sends, e, p2, n);
  }

  lemma DrainBefore(sends: seq<Sent>, e: nat, start: Point, n: nat) returns (p: Point)
    requires Stands(sends, start) && e + 1 == |sends| && start.answered == {} && start.waiting == Below(e + 1)
    requires n <= e && forall m: nat | m < n && Near(sends, e, m) :: !Outward(sends, e, m)
    ensures Stands(sends, p) && p.answered == NearIn(sends, e, 0, n) && !SomeNear(sends, e, p.waiting, n)
    ensures forall k: nat | n <= k <= e :: k in p.waiting
    ensures forall k: nat | k < n && !Near(sends, e, k) :: k in p.waiting
  {
    p := Sweep(sends, e, start, NearIn(sends, e, 0, n), 0, n);
  }

  lemma DrainAfter(sends: seq<Sent>, e: nat, start: Point, n: nat) returns (p: Point)
    requires Stands(sends, start) && e + 1 == |sends| && Near(sends, e, n)
    requires start.answered == NearIn(sends, e, 0, n) + {n} && forall k: nat | n <= k <= e :: k in start.waiting
    ensures Stands(sends, p) && p.answered == NearIn(sends, e, 0, e) + {e} && e in p.waiting
  {
    var later := NearIn(sends, e, n + 1, e);
    assert SomeNear(sends, e, start.waiting, n + 1) by { assert n in start.waiting; }
    var p1 := Sweep(sends, e, start, later, n + 1, e);
    p := AnswerNear(sends, e, p1);
    NearSplit(sends, e, n);
  }

  lemma NearSplit(sends: seq<Sent>, e: nat, n: nat)
    requires e < |sends| && Near(sends, e, n)
    ensures NearIn(sends, e, 0, e) == NearIn(sends, e, 0, n) + {n} + NearIn(sends, e, n + 1, e)
  {
  }

  lemma TakeOutward(sends: seq<Sent>, e: nat, p: Point, n: nat) returns (p': Point)
    requires Stands(sends, p) && e + 1 == |sends| && Near(sends, e, n) && Outward(sends, e, n) && n !in p.answered
    requires forall k: nat | n <= k <= e :: k in p.waiting
    requires !SomeNear(sends, e, p.waiting, n) && forall k: nat | k < n && !Near(sends, e, k) :: k in p.waiting
    ensures Stands(sends, p') && p'.answered == p.answered + {n}
    ensures forall k: nat | n <= k <= e :: k in p'.waiting
  {
    var h: nat :| h < n && Linked(sends[n], sends[h]) && !Near(sends, e, h);
    var taken;
    p', taken := Answer(sends, p, n);
    assert taken.value <= h;
  }

  /** The reply to e takes an entry near it while there is one. */
  lemma AnswerNear(sends: seq<Sent>, e: nat, p: Point) returns (p': Point)
    requires Stands(sends, p) && e + 1 == |sends| && e !in p.answered && e in p.waiting &&
             SomeNear(sends, e, p.waiting, e)
    ensures Stands(sends, p') && p'.answered == p.answered + {e} && e in p'.waiting
    ensures forall k | k in p.waiting && !Near(sends, e, k) :: k in p'.waiting
  {
    var q: nat :| q in p.waiting && q < e && Near(sends, e, q);
    var taken;
    p', taken := Answer(sends, p, e);
    assert taken.value <= q;
  }

  /** If none does, the entries not near e stay, and f finds g when its own kind is used up. */
  lemma InwardDrain(sends: seq<Sent>, e: nat, start: Point, f: nat, g: nat) returns (p: Point)
    requires Stands(sends, start) && e + 1 == |sends| && start.answered == {} && start.waiting == Below(e + 1)
    requires Torn(sends, e, f, g) && forall k: nat | Near(sends, e, k) :: !Outward(sends, e, k)
    ensures Stands(sends, p) && p.answered == NearIn(sends, e, 0, e) + {e} && e in p.waiting
  {
    var who := NearIn(sends, e, 0, e) - {f};
    assert f in NearIn(sends, e, 0, e) - who;
    var p1 := Sweep(sends, e, start, who, 0, e);
    assert g in p1.waiting;
    var p2 := AnswerNear(sends, e, p1);
    assert g in p2.waiting;
    var taken;
    p, taken := Answer(sends, p2, f);
    assert taken.value <= g;
    assert NearIn(sends, e, 0, e) == who + {f};
  }

  /** Every torn triple has a run that answers all sends up to its last one and leaves the entry of that one
      in the `sending` state, with an entry of its temporary id in that state on the screen. */
  lemma TornLeavesEntrySending(schedule: seq<Sent>, e: nat, f: nat, g: nat) returns (run: seq<Event>)
    requires SendableAll(schedule) && Torn(schedule, e, f, g)
    ensures Possible(run) && After(run).sends == schedule[..e + 1] && AllAnswered(After(run))
    ensures Optimistic(schedule[e].tempId, schedule[e].text) in After(run).list
    ensures ShowsSending(After(run), schedule[e].tempId) && !SettledView(After(run))
  {
    var sends := schedule[..e + 1];
    var start := SendAll(schedule, e + 1);
    assert Torn(sends, e, f, g);
    var p;
    if k: nat :| Near(sends, e, k) && Outward(sends, e, k) {
      p := OutwardDrain(sends, e, start, k);
    } else {
      p := InwardDrain(sends, e, start, f, g);
    }
    run := AnswerTheRest(sends, e, p);
  }

  /** When everything linked to e has been answered and e's entry is pending, nothing will settle it. */
  lemma AnswerTheRest(sends: seq<Sent>, e: nat, p: Point) returns (run: seq<Event>)
    requires e + 1 == |sends| && Stands(sends, p) && p.answered == NearIn(sends, e, 0, e) + {e} && e in p.waiting
    ensures Possible(run) && After(run).sends == sends && AllAnswered(After(run))
    ensures Optimistic(sends[e].tempId, sends[e].text) in After(run).list
    ensures ShowsSending(After(run), sends[e].tempId) && !SettledView(After(run))
  {
    var last := AnswerFar(sends, e, p, Below(e + 1) - p.answered);
    run := last.run;
    RunListInv(run);
    WaitingStaysRendered(After(run), last.owner, e);
  }

  lemma WaitingStaysRendered(s: State, owner: seq<Option<nat>>, e: nat)
    requires ListInv(s) && Owned(s, owner) && e in Waiting(owner)
    ensures e < |s.sends| && Optimistic(s.sends[e].tempId, s.sends[e].text) in s.list
    ensures ShowsSending(s, s.sends[e].tempId) && !SettledView(s)
  {
    var i :| 0 <= i < |owner| && owner[i] == Some(e);
    assert Belongs(s.sends, s.list[i], owner[i]);
    PendingStaysRendered(s, i);
  }

  /** The exact condition: whatever order replies and echoes arrive in, the chat has settled whenever all
      that was sent of a schedule is answered, if and only if no three of its sends are torn. */
  lemma SettlesIffNeverTorn(schedule: seq<Sent>)
    requires SendableAll(schedule)
    ensures (forall run | Possible(run) && After(run).sends <= schedule && AllAnswered(After(run)) ::
               SettledView(After(run)))
            <==> NeverTorn(schedule)
  {
    if NeverTorn(schedule) {
      forall run | Possible(run) && After(run).sends <= schedule && AllAnswered(After(run))
        ensures SettledView(After(run))
      {
        PrefixNeverTorn(schedule, |After(run).sends|);
        assert After(run).sends == schedule[..|After(run).sends|];
        SettledWhenAllAnswered(run);
      }
    } else {
      var e: nat, f: nat, g: nat :| Torn(schedule, e, f, g);
      var run := TornLeavesEntrySending(schedule, e, f, g);
    }
  }

  /** A schedule that keeps the pending entries of each text within its unanswered sends settles; the bound
      is the stronger wish of the two. */
  lemma BalancedScheduleSettles(schedule: seq<Sent>)
    requires SendableAll(schedule) && ClockOrder(schedule)
    requires forall run | Possible(run) && After(run).sends <= schedule :: Balanced(After(run))
    ensures forall run | Possible(run) && After(run).sends <= schedule && AllAnswered(After(run)) ::
              SettledView(After(run))
  {
    BalancedIffOneTextPerMillisecond(schedule);
    OneTextIsNeverTorn(schedule);
    SettlesIffNeverTorn(schedule);
  }

  /** The shortest failure: three sends, two in one millisecond, the third with the text of one of them. */
  lemma CollisionLeavesEntrySending(a: string, b: string, first: int, later: int) returns (run: seq<Event>)
    requires !IsBlank(a) && !IsBlank(b) && a != b && later < first < 0
    ensures Possible(run) && AllAnswered(After(run)) && |After(run).sends| == 3
    ensures exists i :: 0 <= i < |Rendered(After(run).list)| && Rendered(After(run).list)[i].pending
  {
    run := TornLeavesEntrySending([Sent(first, a), Sent(first, b), Sent(later, a)], 2, 0, 1);
  }
}
