/**
 Where a message stands in the list, and whether two messages ever change places.

 An event puts its message at the end or in the place of one pending entry, and moves nothing else.  A
 message that is delivered again may still overtake others, by taking the place of an earlier pending entry;
 a server that answers with what was sent and delivers one message per id never makes that happen.
 */
module ChatOrder {
  import opened ChatMessages

  /** The event may settle this entry. */
  predicate MaySettle(s: State, e: Event, m: Message) {
    m.pending &&
    match e
    case Send(_) => false
    case Reply(k, _) => k < |s.sends| && (m.id == s.sends[k].tempId || m.text == s.sends[k].text)
    case Echo(msg) => msg.out && m.text == msg.text
  }

  /** `list'` is the list with only place i changed, to hold m. */
  predicate OnlyAt(list: List, list': List, i: nat, m: Message) {
    && i < |list| == |list'| && list'[i] == m
    && forall j | 0 <= j < |list| && j != i :: list'[j] == list[j]
  }

  /** `list'` is the list with only entry i taken out. */
  predicate OnlyWithout(list: List, list': List, i: nat) {
    && i < |list| == |list'| + 1
    && (forall j | 0 <= j < i :: list'[j] == list[j])
    && (forall j | i <= j < |list'| :: list'[j] == list[j + 1])
  }

  /** What every event does to the list: a send goes to the end; an answer settles the first entry that it may
      and leaves all others where they are; if there is none, a new message goes to the end. */
  lemma EventPlaces(s: State, e: Event) returns (i: int)
    requires ListInv(s) && Legal(s, e)
    ensures if i >= 0 then i < |s.list| && MaySettle(s, e, s.list[i]) else i == -1
    ensures forall j | 0 <= j < (if i >= 0 then i else |s.list|) :: !MaySettle(s, e, s.list[j])
    ensures var list' := Apply(s, e).list;
            match e
            case Send(what) => list' == s.list + [Message(what.tempId, what.text, true, true)]
            case Reply(_, msg) =>
              if i >= 0 then
                if HasId(s.list, msg.id) then OnlyWithout(s.list, list', i) else OnlyAt(s.list, list', i, msg)
              else list' == if HasId(s.list, msg.id) then s.list else s.list + [msg]
            case Echo(msg) =>
              if i >= 0 then OnlyAt(s.list, list', i, msg)
              else list' == if HasId(s.list, msg.id) then s.list else s.list + [msg]
  {
    match e
    case Send(_) => i := -1;
    case Reply(k, msg) => i := ReplyPlaces(s, k, msg);
    case Echo(msg) => i := EchoPlaces(s, msg);
  }

  lemma ReplyPlaces(s: State, k: nat, msg: Message) returns (i: int)
    requires ListInv(s) && Legal(s, Reply(k, msg))
    ensures if i >= 0 then i < |s.list| && MaySettle(s, Reply(k, msg), s.list[i]) else i == -1
    ensures forall j | 0 <= j < (if i >= 0 then i else |s.list|) :: !MaySettle(s, Reply(k, msg), s.list[j])
    ensures var list' := Apply(s, Reply(k, msg)).list;
            if i >= 0 then
              if HasId(s.list, msg.id) then OnlyWithout(s.list, list', i) else OnlyAt(s.list, list', i, msg)
            else list' == if HasId(s.list, msg.id) then s.list else s.list + [msg]
  {
    i := ReplyFirst(s, k, msg);
    ReplyMoves(s.list, s.sends[k], msg);
  }

  lemma ReplyFirst(s: State, k: nat, msg: Message) returns (i: int)
    requires ListInv(s) && Legal(s, Reply(k, msg))
    ensures i == ReplyIndex(s.list, s.sends[k].tempId, s.sends[k].text)
    ensures i >= 0 ==> MaySettle(s, Reply(k, msg), s.list[i])
    ensures forall j | 0 <= j < (if i >= 0 then i else |s.list|) :: !MaySettle(s, Reply(k, msg), s.list[j])
  {
    i := ReplyIndex(s.list, s.sends[k].tempId, s.sends[k].text);
    if i >= 0 {
      assert Known(s, s.list[i]);
    }
  }

  lemma ReplyMoves(list: List, sent: Sent, msg: Message)
    ensures var i, list' := ReplyIndex(list, sent.tempId, sent.text), AfterReply(list, sent.tempId, sent.text, msg);
            if i >= 0 then
              if HasId(list, msg.id) then OnlyWithout(list, list', i) else OnlyAt(list, list', i, msg)
            else list' == if HasId(list, msg.id) then list else list + [msg]
  {
  }

  lemma EchoPlaces(s: State, msg: Message) returns (i: int)
    requires Legal(s, Echo(msg))
    ensures if i >= 0 then i < |s.list| && MaySettle(s, Echo(msg), s.list[i]) else i == -1
    ensures forall j | 0 <= j < (if i >= 0 then i else |s.list|) :: !MaySettle(s, Echo(msg), s.list[j])
    ensures var list' := Apply(s, Echo(msg)).list;
            if i >= 0 then OnlyAt(s.list, list', i, msg)
            else list' == if HasId(s.list, msg.id) then s.list else s.list + [msg]
  {
    i := if msg.out then EchoIndex(s.list, msg.text) else -1;
  }

  // ----- the order of two messages

  /** Both ids are listed, and a's first entry comes before b's. */
  ghost predicate Above(list: List, a: int, b: int) {
    && HasId(list, b)
    && exists i :: 0 <= i < |list| && list[i].id == a && NoneUpTo(list, i, b)
  }

  predicate NoneUpTo(list: List, i: int, id: int) {
    forall j | 0 <= j <= i && j < |list| :: list[j].id != id
  }

  /** The message b is delivered once more, and the entry it settles stands before every entry of a. */
  ghost predicate Overtakes(s: State, e: Event, a: int, b: int) {
    && e.Echo? && e.msg.id == b
    && exists i :: 0 <= i < |s.list| && MaySettle(s, e, s.list[i]) && NoneUpTo(s.list, i, a)
  }

  /** Two delivered messages change places exactly when the lower one overtakes. */
  lemma StepKeepsOrderIff(s: State, e: Event, a: int, b: int)
    requires ListInv(s) && Legal(s, e) && a > 0 && b > 0 && Above(s.list, a, b)
    ensures Above(Apply(s, e).list, a, b) <==> !Overtakes(s, e, a, b)
  {
    var at := EventPlaces(s, e);
    var list, list' := s.list, Apply(s, e).list;
    var i :| 0 <= i < |list| && list[i].id == a && NoneUpTo(list, i, b);
    var j :| 0 <= j < |list| && list[j].id == b;
    SettledIsNegative(s, e, at);
    if at < 0 {
      PrefixOrder(list, list', i, j, a, b);
    } else if e.Reply? && HasId(list, e.msg.id) {
      WithoutOrder(list, list', at, i, j, a, b);
    } else {
      OverwriteOrder(s, e, at, i, j, a, b);
    }
  }

  lemma PrefixOrder(list: List, list': List, i: nat, j: nat, a: int, b: int)
    requires list <= list' && i < |list| && j < |list|
    requires list[i].id == a && NoneUpTo(list, i, b) && list[j].id == b
    ensures Above(list', a, b)
  {
    assert list'[i] == list[i] && list'[j] == list[j];
    assert NoneUpTo(list', i, b);
  }

  lemma WithoutOrder(list: List, list': List, at: nat, i: nat, j: nat, a: int, b: int)
    requires OnlyWithout(list, list', at) && i < |list| && j < |list| && at != i && at != j
    requires list[i].id == a && NoneUpTo(list, i, b) && list[j].id == b
    ensures Above(list', a, b)
  {
    var i', j' := if i < at then i else i - 1, if j < at then j else j - 1;
    assert list'[i'] == list[i] && list'[j'] == list[j];
    assert NoneUpTo(list', i', b);
  }

  /** A pending entry carries a temporary id. */
  lemma SettledIsNegative(s: State, e: Event, at: int)
    requires ListInv(s) && (at >= 0 ==> at < |s.list| && MaySettle(s, e, s.list[at]))
    ensures at >= 0 ==> s.list[at].id < 0
  {
    if at >= 0 {
      assert Known(s, s.list[at]);
    }
  }

  lemma OverwriteOrder(s: State, e: Event, at: nat, i: nat, j: nat, a: int, b: int)
    requires ListInv(s) && Legal(s, e) && !e.Send? && OnlyAt(s.list, Apply(s, e).list, at, e.msg)
    requires MaySettle(s, e, s.list[at]) && forall k | 0 <= k < at :: !MaySettle(s, e, s.list[k])
    requires e.Reply? ==> !HasId(s.list, e.msg.id)
    requires a > 0 && b > 0 && s.list[at].id < 0
    requires i < |s.list| && j < |s.list| && s.list[i].id == a && NoneUpTo(s.list, i, b) && s.list[j].id == b
    ensures Above(Apply(s, e).list, a, b) <==> !Overtakes(s, e, a, b)
  {
    var list, list' := s.list, Apply(s, e).list;
    assert list'[i] == list[i] && list'[j] == list[j];
    if e.msg.id == b {
      assert e.Echo?;
      if NoneUpTo(list, at, a) {
        assert Overtakes(s, e, a, b);
        assert list'[at].id == b && NoneUpTo(list', at, a);
        NotBoth(list', at, a, b);
      } else {
        var k :| 0 <= k <= at && list[k].id == a;
        assert k < at && list'[k].id == a;
        if NoneUpTo(list', i, b) {
        } else {
          assert at <= i;
          var f := FirstOf(list, k, a);
          assert NoneUpTo(list', f, b) && list'[f].id == a;
        }
        NotOvertaking(s, e, at, k, a, b);
      }
    } else {
      assert NoneUpTo(list', i, b);
    }
  }

  lemma {:induction false} FirstOf(list: List, k: nat, id: int) returns (f: nat)
    requires k < |list| && list[k].id == id
    ensures f <= k && list[f].id == id && forall j | 0 <= j < f :: list[j].id != id
  {
    if j :| 0 <= j < k && list[j].id == id {
      f := FirstOf(list, j, id);
    } else {
      f := k;
    }
  }

  lemma NotBoth(list: List, at: nat, a: int, b: int)
    requires at < |list| && list[at].id == b && NoneUpTo(list, at, a)
    ensures !Above(list, a, b)
  {
  }

  lemma NotOvertaking(s: State, e: Event, at: nat, k: nat, a: int, b: int)
    requires k < at < |s.list| && s.list[k].id == a && forall l | 0 <= l < at :: !MaySettle(s, e, s.list[l])
    ensures !Overtakes(s, e, a, b)
  {
  }

  /** From the n-th event of the run on, a is above b in every list. */
  ghost predicate StaysAbove(run: seq<Event>, n: nat, a: int, b: int)
    requires Possible(run)
    decreases |run|
  {
    Above(After(run).list, a, b) && (|run| > n ==> StaysAbove(run[..|run| - 1], n, a, b))
  }

  /** After its n-th event, no event of the run lets b overtake a. */
  ghost predicate NeverOvertakes(run: seq<Event>, n: nat, a: int, b: int)
    requires Possible(run)
    decreases |run|
  {
    |run| > n ==>
      && NeverOvertakes(run[..|run| - 1], n, a, b)
      && !Overtakes(After(run[..|run| - 1]), run[|run| - 1], a, b)
  }

  /** The exact condition over runs, for any two messages that were delivered within the first n events. */
  lemma {:induction false} OrderKeptIff(run: seq<Event>, n: nat, a: int, b: int)
    requires Possible(run) && n <= |run| && Possible(run[..n])
    requires a in After(run[..n]).delivered && b in After(run[..n]).delivered && Above(After(run[..n]).list, a, b)
    ensures StaysAbove(run, n, a, b) <==> NeverOvertakes(run, n, a, b)
    decreases |run|
  {
    if n < |run| {
      var init := run[..|run| - 1];
      assert init[..n] == run[..n];
      OrderKeptIff(init, n, a, b);
      if StaysAbove(init, n, a, b) {
        RunListInv(init);
        RunListInv(run[..n]);
        StepKeepsOrderIff(After(init), run[|run| - 1], a, b);
      }
    } else {
      assert run[..n] == run;
    }
  }

  // ----- the order on the screen

  lemma AbovePush(list: List, m: Message, a: int, b: int)
    ensures Above(list + [m], a, b) <==>
            if HasId(list, b) then Above(list, a, b) else m.id == b && a != b && HasId(list, a)
  {
    var longer := list + [m];
    HasIdPush(list, m);
    assert forall j | 0 <= j < |list| :: longer[j] == list[j];
    if HasId(list, b) {
      var j :| 0 <= j < |list| && list[j].id == b;
      assert longer[j].id == b;
      if i :| 0 <= i < |longer| && longer[i].id == a && NoneUpTo(longer, i, b) {
        assert i < j;
        assert list[i].id == a && NoneUpTo(list, i, b);
      }
      if i :| 0 <= i < |list| && list[i].id == a && NoneUpTo(list, i, b) {
        assert longer[i].id == a && NoneUpTo(longer, i, b);
      }
    } else {
      NoneListed(list, b);
      if m.id == b && a != b && HasId(list, a) {
        var i :| 0 <= i < |list| && list[i].id == a;
        assert longer[i].id == a && NoneUpTo(longer, i, b);
      }
      if Above(longer, a, b) {
        var i :| 0 <= i < |longer| && longer[i].id == a && NoneUpTo(longer, i, b);
        assert i < |list| && list[i].id == a;
      }
    }
  }

  lemma NoneListed(list: List, id: int)
    requires !HasId(list, id)
    ensures forall j | 0 <= j < |list| :: list[j].id != id
  {
  }

  /** The screen shows any two ids in the order of their first entries in the list. */
  lemma {:induction false} RenderedKeepsOrder(list: List, a: int, b: int)
    ensures Above(Rendered(list), a, b) <==> Above(list, a, b)
  {
    if list != [] {
      var init, last := list[..|list| - 1], list[|list| - 1];
      RenderedKeepsOrder(init, a, b);
      RenderedOnce(init);
      assert list == init + [last];
      AbovePush(init, last, a, b);
      AbovePush(Rendered(init), last, a, b);
      var shown := Rendered(init);
      assert Rendered(list) == if HasId(init, last.id) then shown else shown + [last];
    }
  }

  // ----- servers that never make a message overtake

  /** A reply carries the text that was sent. */
  predicate AnswersWhatWasSent(s: State, e: Event) {
    e.Reply? ==> e.send < |s.sends| && e.msg.text == s.sends[e.send].text
  }

  ghost predicate Faithful(run: seq<Event>)
    requires Possible(run)
    decreases |run|
  {
    run == [] || (Faithful(run[..|run| - 1]) && AnswersWhatWasSent(After(run[..|run| - 1]), run[|run| - 1]))
  }

  /** Whenever an id is delivered, it is delivered as the same message. */
  predicate OneMessagePerId(run: seq<Event>) {
    forall i, j | 0 <= i < |run| && 0 <= j < |run| && !run[i].Send? && !run[j].Send? ::
      run[i].msg.id == run[j].msg.id ==> run[i].msg == run[j].msg
  }

  predicate Brought(run: seq<Event>, m: Message) {
    exists i :: 0 <= i < |run| && !run[i].Send? && run[i].msg == m
  }

  lemma {:induction false} ListedWasBrought(run: seq<Event>, m: Message)
    requires Possible(run) && m in After(run).list && !m.pending
    ensures Brought(run, m)
  {
    var n := |run| - 1;
    var i :| 0 <= i < |After(run).list| && After(run).list[i] == m;
    EntryOrigin(After(run[..n]), run[n], i);
    if m in After(run[..n]).list {
      ListedWasBrought(run[..n], m);
      var j :| 0 <= j < n && !run[..n][j].Send? && run[..n][j].msg == m;
      assert run[j].msg == m;
    } else {
      assert run[n].msg == m;
    }
  }

  /** No pending entry stands above an outgoing message of its own text. */
  ghost predicate Clear(list: List) {
    forall i, j | 0 <= i < j < |list| && list[i].pending && list[j].out && !list[j].pending ::
      list[i].text != list[j].text
  }

  lemma StepClear(s: State, e: Event)
    requires ListInv(s) && Legal(s, e) && AnswersWhatWasSent(s, e) && Clear(s.list)
    ensures Clear(Apply(s, e).list)
  {
    var at := EventPlaces(s, e);
    var list, list' := s.list, Apply(s, e).list;
    forall i, j | 0 <= i < j < |list'| && list'[i].pending && list'[j].out && !list'[j].pending
      ensures list'[i].text != list'[j].text
    {
      if e.Reply? && at >= 0 && HasId(list, e.msg.id) {
        assert list'[i] == list[if i < at then i else i + 1] && list'[j] == list[if j < at then j else j + 1];
      } else if at >= 0 && j == at {
        assert list'[i] == list[i] && !MaySettle(s, e, list[i]);
      }
    }
  }

  lemma {:induction false} RunClear(run: seq<Event>)
    requires Possible(run) && Faithful(run)
    ensures Clear(After(run).list)
  {
    if run != [] {
      var init := run[..|run| - 1];
      RunClear(init);
      RunListInv(init);
      StepClear(After(init), run[|run| - 1]);
    }
  }

  /** If replies carry what was sent and an id always comes with the same message, nothing ever overtakes. */
  lemma FaithfulNeverOvertakes(init: seq<Event>, e: Event, a: int, b: int)
    requires Possible(init) && Legal(After(init), e) && Faithful(init) && OneMessagePerId(init + [e])
    requires a > 0 && b > 0 && Above(After(init).list, a, b)
    ensures !Overtakes(After(init), e, a, b)
  {
    var s := After(init);
    RunListInv(init);
    RunClear(init);
    if Overtakes(s, e, a, b) {
      var i :| 0 <= i < |s.list| && MaySettle(s, e, s.list[i]) && NoneUpTo(s.list, i, a);
      var h :| 0 <= h < |s.list| && s.list[h].id == a && NoneUpTo(s.list, h, b);
      var j :| 0 <= j < |s.list| && s.list[j].id == b;
      assert i < h < j && Known(s, s.list[j]) && !s.list[j].pending;
      OnceMoreTheSame(init, e, s.list[j]);
    }
  }

  lemma OnceMoreTheSame(init: seq<Event>, e: Event, m: Message)
    requires Possible(init) && OneMessagePerId(init + [e]) && !e.Send?
    requires m in After(init).list && !m.pending && m.id == e.msg.id
    ensures m == e.msg
  {
    ListedWasBrought(init, m);
    var k :| 0 <= k < |init| && !init[k].Send? && init[k].msg == m;
    assert (init + [e])[k] == init[k] && (init + [e])[|init|] == e;
  }

  /** So in such a run the delivered messages keep their order for good, in the list and on the screen. */
  lemma {:induction false} FaithfulRunKeepsOrder(run: seq<Event>, n: nat, a: int, b: int)
    requires Possible(run) && n <= |run| && Possible(run[..n]) && Faithful(run) && OneMessagePerId(run)
    requires a in After(run[..n]).delivered && b in After(run[..n]).delivered && Above(After(run[..n]).list, a, b)
    ensures Above(After(run).list, a, b) && Above(Rendered(After(run).list), a, b)
    decreases |run|
  {
    if n < |run| {
      var init, e := run[..|run| - 1], run[|run| - 1];
      assert init[..n] == run[..n] && run == init + [e];
      assert forall i | 0 <= i < |init| :: init[i] == run[i];
      FaithfulRunKeepsOrder(init, n, a, b);
      RunListInv(init);
      RunListInv(run[..n]);
      FaithfulNeverOvertakes(init, e, a, b);
      StepKeepsOrderIff(After(init), e, a, b);
    } else {
      assert run[..n] == run;
    }
    RenderedKeepsOrder(After(run).list, a, b);
  }

  /** Without that a message can overtake: 5 is delivered below 7, and then once more as an outgoing message
      with the text of an entry that is pending above both. */
  lemma EditedMessageOvertakes(text: string) returns (run: seq<Event>, e: Event)
    requires !IsBlank(text)
    ensures Possible(run) && Legal(After(run), e)
    ensures Above(After(run).list, 7, 5) && Above(Apply(After(run), e).list, 5, 7)
  {
    var pending, seven := Optimistic(-1, text), Message(7, text, false, false);
    var five, edited := Message(5, text + "?", true, false), Message(5, text, true, false);
    AfterOne([], Send(Sent(-1, text)));
    assert After([]) == EMPTY && [] + [Send(Sent(-1, text))] == [Send(Sent(-1, text))];
    run := AfterTwo([Send(Sent(-1, text))], Echo(seven), Echo(five));
    e := Echo(edited);
    ThirdStaysLast(pending, seven, five);
    var list := [pending, seven, five];
    assert After(run).list == list;
    assert list[1].id == 7 && NoneUpTo(list, 1, 5) && list[2].id == 5;
    var list' := AfterEcho(list, edited);
    assert EchoIndex(list, text) == 0 && list' == [edited, seven, five];
    assert list'[0].id == 5 && NoneUpTo(list', 0, 7) && list'[1].id == 7;
  }

  /** Two echoes that settle nothing go to the end. */
  lemma ThirdStaysLast(pending: Message, seven: Message, five: Message)
    requires pending.pending && pending.id < 0 && seven.id == 7 && !seven.out && !seven.pending
    requires five.id == 5 && five.text != pending.text
    ensures AfterEcho(AfterEcho([pending], seven), five) == [pending, seven, five]
  {
    assert [pending] + [seven] == [pending, seven] && [pending, seven] + [five] == [pending, seven, five];
  }
}
