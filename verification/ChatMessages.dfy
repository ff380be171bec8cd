/**
 Optimistic sending in the web client: the list of one chat's messages, as sendMessage,
 handleNewMessage and renderMessages treat it.

 A sent message is shown at once under a temporary negative id and replaced when the server's
 message arrives, by the HTTP reply or by the WebSocket echo, in whichever order.  Nothing ties
 an echo to a send except its text, so equal texts compete for the same pending entries.
 */
module ChatMessages {

  datatype Message = Message(id: int, text: string, out: bool, pending: bool)

  type List = seq<Message>

  /** Array.prototype.findIndex. */
  function FindIndex(list: List, p: Message -> bool): (i: int)
    ensures -1 <= i < |list|
    ensures i >= 0 ==> p(list[i]) && forall j | 0 <= j < i :: !p(list[j])
    ensures i == -1 ==> forall j | 0 <= j < |list| :: !p(list[j])
  {
    if list == [] then -1
    else if p(list[0]) then 0
    else
      var rest := FindIndex(list[1..], p);
      assert forall j | 1 <= j < |list| :: list[j] == list[1..][j - 1];
      if rest < 0 then -1 else rest + 1
  }

  function Splice(list: List, i: nat): List
    requires i < |list|
  {
    list[..i] + list[i + 1..]
  }

  predicate HasId(list: List, id: int) {
    exists i :: 0 <= i < |list| && list[i].id == id
  }

  // ----- the three handlers, on the list of one chat

  function Optimistic(tempId: int, text: string): Message {
    Message(tempId, text, true, true)
  }

  function AfterSend(list: List, tempId: int, text: string): List {
    list + [Optimistic(tempId, text)]
  }

  /** The entry a successful reply settles: its own by id, or the first pending one of the same text. */
  function ReplyIndex(list: List, tempId: int, text: string): int {
    FindIndex(list, (m: Message) => m.id == tempId || (m.pending && m.text == text))
  }

  function AfterReply(list: List, tempId: int, text: string, sent: Message): List {
    var i := ReplyIndex(list, tempId, text);
    if HasId(list, sent.id) then
      if i >= 0 then Splice(list, i) else list
    else if i >= 0 then list[i := sent]
    else list + [sent]
  }

  function EchoIndex(list: List, text: string): int {
    FindIndex(list, (m: Message) => m.pending && m.text == text)
  }

  function AfterEcho(list: List, msg: Message): List {
    var i := if msg.out then EchoIndex(list, msg.text) else -1;
    if i >= 0 then list[i := msg]
    else if HasId(list, msg.id) then list
    else list + [msg]
  }

  /** The first message of each id, in list order. */
  function Rendered(list: List): List {
    if list == [] then []
    else
      var init, last := list[..|list| - 1], list[|list| - 1];
      Rendered(init) + if HasId(init, last.id) then [] else [last]
  }

  /** The client's state: one list per chat, created on first use. */
  class Client {
    var messages: map<int, List>

    constructor ()
      ensures messages == map[]
    {
      messages := map[];
    }

    function ListOf(chat: int): List
      reads this
    {
      if chat in messages then messages[chat] else []
    }

    /** The part of sendMessage before the request; a blank text is not sent. */
    method BeginSend(chat: int, tempId: int, text: string) returns (sending: bool)
      modifies this
      ensures sending <==> exists i :: 0 <= i < |text| && !IsSpace(text[i])
      ensures messages ==
                if sending then old(messages)[chat := old(ListOf(chat)) + [Message(tempId, text, true, true)]]
                else old(messages)
    {
      if IsBlank(text) {
        return false;
      }
      if chat !in messages {
        messages := messages[chat := []];
      }
      messages := messages[chat := messages[chat] + [Optimistic(tempId, text)]];
      return true;
    }

    /** The part of sendMessage after a successful reply. */
    method EndSend(chat: int, tempId: int, text: string, sent: Message)
      requires chat in messages
      modifies this
      ensures messages == old(messages)[chat := AfterReply(old(ListOf(chat)), tempId, text, sent)]
    {
      var list := messages[chat];
      var tempIdx := ReplyIndex(list, tempId, text);
      var alreadyExists := HasId(list, sent.id);
      if alreadyExists {
        if tempIdx >= 0 {
          list := list[..tempIdx] + list[tempIdx + 1..];
        }
      } else if tempIdx >= 0 {
        list := list[tempIdx := sent];
      } else {
        list := list + [sent];
      }
      messages := messages[chat := list];
    }

    method HandleNewMessage(chat: int, msg: Message)
      modifies this
      ensures messages == old(messages)[chat := AfterEcho(old(ListOf(chat)), msg)]
    {
      if chat !in messages {
        messages := messages[chat := []];
      }
      var list := messages[chat];
      if msg.out {
        var pendingIdx := EchoIndex(list, msg.text);
        if pendingIdx >= 0 {
          messages := messages[chat := list[pendingIdx := msg]];
          return;
        }
      }
      var exists' := HasId(list, msg.id);
      if !exists' {
        messages := messages[chat := list + [msg]];
      }
    }

    /** The deduplication that renderMessages starts with. */
    method DedupForRender(chat: int) returns (out: List)
      ensures out == Rendered(ListOf(chat))
    {
      var raw := ListOf(chat);
      var seen: set<int> := {};
      out := [];
      var i := 0;
      while i < |raw|
        invariant 0 <= i <= |raw| && out == Rendered(raw[..i])
        invariant seen == set j | 0 <= j < i :: raw[j].id
      {
        assert raw[..i + 1][..i] == raw[..i];
        assert HasId(raw[..i], raw[i].id) <==> raw[i].id in seen;
        if raw[i].id !in seen {
          seen := seen + {raw[i].id};
          out := out + [raw[i]];
        }
        i := i + 1;
      }
      assert raw[..i] == raw;
    }
  }

  // ----- runs

  datatype Sent = Sent(tempId: int, text: string)

  datatype Event = Send(what: Sent) | Reply(send: nat, msg: Message) | Echo(msg: Message)

  /** The list, what has been sent, which sends have been answered, and the ids the server delivered. */
  datatype State = State(list: List, sends: seq<Sent>, answered: set<nat>, delivered: set<int>)

  const EMPTY := State([], [], {}, {})

  /** White space in the sense of String.prototype.trim. */
  predicate IsSpace(c: char) {
    || '\t' <= c <= '\r' || c == ' ' || c == '\U{a0}' || c == '\U{1680}' || '\U{2000}' <= c <= '\U{200a}'
    || c == '\U{2028}' || c == '\U{2029}' || c == '\U{202f}' || c == '\U{205f}' || c == '\U{3000}' || c == '\U{feff}'
  }

  predicate IsBlank(text: string) {
    forall i | 0 <= i < |text| :: IsSpace(text[i])
  }

  /** Character by character: the white space and the line ends of ECMA-262, sections 12.2 and 12.3. */
  lemma SpacesAreTheStandards(c: char)
    ensures IsSpace(c) <==>
            c in {'\t', '\n', '\U{b}', '\U{c}', '\r', ' ', '\U{a0}', '\U{1680}',
                  '\U{2000}', '\U{2001}', '\U{2002}', '\U{2003}', '\U{2004}', '\U{2005}', '\U{2006}', '\U{2007}',
                  '\U{2008}', '\U{2009}', '\U{200a}', '\U{2028}', '\U{2029}', '\U{202f}', '\U{205f}', '\U{3000}',
                  '\U{feff}'}
  {
  }

  predicate FromServer(m: Message) {
    m.id > 0 && !m.pending
  }

  /** Replies are successful and come once per send; echoes may come at any time, any number of times,
      for any message, including ones sent from another device. */
  predicate Legal(s: State, e: Event) {
    match e
    case Send(what) => what.tempId < 0 && !IsBlank(what.text)
    case Reply(k, msg) => k < |s.sends| && k !in s.answered && FromServer(msg)
    case Echo(msg) => FromServer(msg)
  }

  function Apply(s: State, e: Event): State
    requires Legal(s, e)
  {
    match e
    case Send(what) => s.(list := AfterSend(s.list, what.tempId, what.text), sends := s.sends + [what])
    case Reply(k, msg) =>
      s.(list := AfterReply(s.list, s.sends[k].tempId, s.sends[k].text, msg),
         answered := s.answered + {k}, delivered := s.delivered + {msg.id})
    case Echo(msg) => s.(list := AfterEcho(s.list, msg), delivered := s.delivered + {msg.id})
  }

  /** `run` can happen in a fresh chat. */
  predicate Possible(run: seq<Event>)
    decreases |run|, 0
  {
    run == [] || (Possible(run[..|run| - 1]) && Legal(After(run[..|run| - 1]), run[|run| - 1]))
  }

  function After(run: seq<Event>): State
    requires Possible(run)
    decreases |run|, 1
  {
    if run == [] then EMPTY else Apply(After(run[..|run| - 1]), run[|run| - 1])
  }

  // ----- counting

  function PendingCount(list: List, text: string): nat {
    if list == [] then 0
    else PendingCount(list[1..], text) + if list[0].pending && list[0].text == text then 1 else 0
  }

  function Unanswered(s: State, text: string): set<nat> {
    set k: nat | k < |s.sends| && k !in s.answered && s.sends[k].text == text
  }

  /** The pending entries of every text are at most the unanswered sends of that text. */
  ghost predicate Balanced(s: State) {
    forall text {:trigger PendingCount(s.list, text)} :: PendingCount(s.list, text) <= |Unanswered(s, text)|
  }

  /** A temporary id, which is a negated millisecond, was not taken for two different texts. */
  ghost predicate OneTextPerTempId(sends: seq<Sent>) {
    forall i, j | 0 <= i < |sends| && 0 <= j < |sends| && sends[i].tempId == sends[j].tempId ::
      sends[i].text == sends[j].text
  }

  lemma {:induction false} PendingCountSplit(a: List, b: List, text: string)
    ensures PendingCount(a + b, text) == PendingCount(a, text) + PendingCount(b, text)
  {
    if a == [] {
      assert a + b == b;
    } else {
      assert (a + b)[1..] == a[1..] + b;
      PendingCountSplit(a[1..], b, text);
    }
  }

  lemma PendingCountPush(list: List, m: Message, text: string)
    ensures PendingCount(list + [m], text) == PendingCount(list, text) + if m.pending && m.text == text then 1 else 0
  {
    PendingCountSplit(list, [m], text);
    assert [m][1..] == [];
  }

  lemma PendingCountMiddle(a: List, m: Message, b: List, text: string)
    ensures PendingCount(a + [m] + b, text) == PendingCount(a + b, text) + if m.pending && m.text == text then 1 else 0
  {
    PendingCountSplit(a + [m], b, text);
    PendingCountSplit(a, b, text);
    PendingCountPush(a, m, text);
  }

  /** The count without entry i, and with a message in its place that is not pending. */
  lemma PendingCountAt(list: List, i: nat, m: Message, text: string)
    requires i < |list| && !m.pending
    ensures PendingCount(list, text) ==
            PendingCount(Splice(list, i), text) + if list[i].pending && list[i].text == text then 1 else 0
    ensures PendingCount(list[i := m], text) == PendingCount(Splice(list, i), text)
  {
    var a, b := list[..i], list[i + 1..];
    assert list == a + [list[i]] + b;
    PendingCountMiddle(a, list[i], b, text);
    assert list[i := m] == a + [m] + b;
    PendingCountMiddle(a, m, b, text);
  }

  lemma {:induction false} NoPendingCountsZero(list: List, text: string)
    ensures PendingCount(list, text) == 0 <==> forall i | 0 <= i < |list| :: !(list[i].pending && list[i].text == text)
  {
    if list != [] {
      NoPendingCountsZero(list[1..], text);
      assert forall i | 1 <= i < |list| :: list[i] == list[1..][i - 1];
    }
  }

  // ----- what every run keeps, even when temporary ids collide

  /** An entry is the optimistic one of some send or a delivered message. */
  predicate Known(s: State, m: Message) {
    if m.pending then Sent(m.id, m.text) in s.sends else m.id in s.delivered
  }

  /** Every entry is known, and no delivered id is missing. */
  ghost predicate ListInv(s: State) {
    && (forall i {:trigger s.list[i]} | 0 <= i < |s.list| :: Known(s, s.list[i]))
    && (forall id | id in s.delivered :: id > 0 && HasId(s.list, id))
    && (forall k | 0 <= k < |s.sends| :: s.sends[k].tempId < 0)
    && (forall k | k in s.answered :: k < |s.sends|)
  }

  lemma IdKeptByUpdate(list: List, i: nat, m: Message, id: int)
    requires i < |list| && HasId(list, id) && list[i].id != id
    ensures HasId(list[i := m], id) && HasId(Splice(list, i), id)
  {
    var j :| 0 <= j < |list| && list[j].id == id;
    assert list[i := m][j].id == id;
    assert Splice(list, i)[if j < i then j else j - 1].id == id;
  }

  lemma StepListInv(s: State, e: Event)
    requires ListInv(s) && Legal(s, e)
    ensures ListInv(Apply(s, e))
    ensures forall id | id in s.delivered :: HasId(Apply(s, e).list, id)
  {
    var s' := Apply(s, e);
    forall id | id in s'.delivered
      ensures id > 0 && HasId(s'.list, id)
    {
      DeliveredStays(s, e, id);
    }
    forall i | 0 <= i < |s'.list|
      ensures Known(s', s'.list[i])
    {
      EntryOrigin(s, e, i);
      StaysKnown(s, e, s'.list[i]);
    }
  }

  /** What an event leaves in the list was there before or is what the event brought. */
  lemma EntryOrigin(s: State, e: Event, i: nat)
    requires Legal(s, e) && i < |Apply(s, e).list|
    ensures var m := Apply(s, e).list[i];
            m in s.list || m == if e.Send? then Optimistic(e.what.tempId, e.what.text) else e.msg
  {
    if e.Reply? {
      ReplyOrigin(s.list, s.sends[e.send].tempId, s.sends[e.send].text, e.msg, i);
    }
  }

  lemma ReplyOrigin(list: List, tempId: int, text: string, msg: Message, i: nat)
    requires i < |AfterReply(list, tempId, text, msg)|
    ensures AfterReply(list, tempId, text, msg)[i] in list || AfterReply(list, tempId, text, msg)[i] == msg
  {
    var at := ReplyIndex(list, tempId, text);
    if HasId(list, msg.id) && at >= 0 {
      assert Splice(list, at)[i] == list[if i < at then i else i + 1];
    }
  }

  lemma StaysKnown(s: State, e: Event, m: Message)
    requires ListInv(s) && Legal(s, e)
    requires m in s.list || m == if e.Send? then Optimistic(e.what.tempId, e.what.text) else e.msg
    ensures Known(Apply(s, e), m)
  {
    if e.Send? {
      assert Apply(s, e).sends[|s.sends|] == e.what;
    }
  }

  lemma DeliveredStays(s: State, e: Event, id: int)
    requires ListInv(s) && Legal(s, e) && id in Apply(s, e).delivered
    ensures id > 0 && HasId(Apply(s, e).list, id)
  {
    var s' := Apply(s, e);
    match e
    case Send(what) =>
      var j :| 0 <= j < |s.list| && s.list[j].id == id;
      assert s'.list[j].id == id;
    case Reply(k, msg) =>
      var i := ReplyIndex(s.list, s.sends[k].tempId, s.sends[k].text);
      Settles(s, s.list, i, msg, id, s'.list);
    case Echo(msg) =>
      var i := if msg.out then EchoIndex(s.list, msg.text) else -1;
      Settles(s, s.list, i, msg, id, s'.list);
  }

  /** Overwriting or removing an optimistic entry loses no delivered id. */
  lemma Settles(s: State, list: List, i: int, msg: Message, id: int, list': List)
    requires ListInv(s) && list == s.list && -1 <= i < |list| && FromServer(msg)
    requires i >= 0 ==> list[i].id < 0
    requires id == msg.id || id in s.delivered
    requires || (i >= 0 && list' == list[i := msg])
             || (HasId(list, msg.id) && list' == (if i >= 0 then Splice(list, i) else list))
             || (i < 0 && list' == list + [msg])
    ensures HasId(list', id)
  {
    if i >= 0 {
      if HasId(list, id) {
        assert id > 0;
        IdKeptByUpdate(list, i, msg, id);
      }
      assert list[i := msg][i] == msg;
    } else {
      assert (list + [msg])[|list|] == msg;
      if j :| 0 <= j < |list| && list[j].id == id {
        assert list'[j].id == id;
      }
    }
  }

  lemma {:induction false} RunListInv(run: seq<Event>)
    requires Possible(run)
    ensures ListInv(After(run))
  {
    if run != [] {
      var n := |run| - 1;
      RunListInv(run[..n]);
      StepListInv(After(run[..n]), run[n]);
    }
  }

  /** A delivered message never leaves the list, whatever happens afterwards. */
  lemma {:induction false} DeliveredForever(run: seq<Event>, n: nat, id: int)
    requires Possible(run) && n <= |run| && Possible(run[..n]) && id in After(run[..n]).delivered
    ensures id in After(run).delivered && HasId(After(run).list, id)
    decreases |run|
  {
    RunListInv(run);
    if n < |run| {
      var m := |run| - 1;
      assert run[..m][..n] == run[..n];
      DeliveredForever(run[..m], n, id);
    } else {
      assert run[..n] == run;
    }
  }

  // ----- the balance of pending entries and unanswered sends

  lemma StepBalanced(s: State, e: Event)
    requires ListInv(s) && Balanced(s) && Legal(s, e) && OneTextPerTempId(s.sends)
    ensures Balanced(Apply(s, e))
  {
    var s' := Apply(s, e);
    forall text
      ensures PendingCount(s'.list, text) <= |Unanswered(s', text)|
    {
      assert PendingCount(s.list, text) <= |Unanswered(s, text)|;
      match e
      case Send(what) =>
        PendingCountPush(s.list, Optimistic(what.tempId, what.text), text);
        SendUnanswered(s, what, text);
      case Reply(k, msg) =>
        ReplyPending(s, k, msg, text);
        ReplyUnanswered(s, k, msg, text);
      case Echo(msg) =>
        assert Unanswered(s', text) == Unanswered(s, text);
        EchoPending(s, msg, text);
    }
  }

  lemma SendUnanswered(s: State, what: Sent, text: string)
    requires |s.sends| !in s.answered
    ensures |Unanswered(s.(sends := s.sends + [what]), text)| ==
            |Unanswered(s, text)| + if what.text == text then 1 else 0
  {
    var now := Unanswered(s.(sends := s.sends + [what]), text);
    assert now == if what.text == text then Unanswered(s, text) + {|s.sends|} else Unanswered(s, text);
  }

  lemma ReplyUnanswered(s: State, k: nat, msg: Message, text: string)
    requires Legal(s, Reply(k, msg))
    ensures |Unanswered(Apply(s, Reply(k, msg)), text)| ==
            |Unanswered(s, text)| - if s.sends[k].text == text then 1 else 0
  {
    var now := Unanswered(Apply(s, Reply(k, msg)), text);
    assert now == if s.sends[k].text == text then Unanswered(s, text) - {k} else Unanswered(s, text);
  }

  /** The entry that a reply settles is an optimistic one with the text of the answered send. */
  lemma ReplySettlesItsText(s: State, k: nat)
    requires ListInv(s) && k < |s.sends| && OneTextPerTempId(s.sends)
    ensures var i := ReplyIndex(s.list, s.sends[k].tempId, s.sends[k].text);
            if i >= 0 then s.list[i].pending && s.list[i].text == s.sends[k].text
            else PendingCount(s.list, s.sends[k].text) == 0
  {
    var i := ReplyIndex(s.list, s.sends[k].tempId, s.sends[k].text);
    if i >= 0 {
      if s.list[i].id == s.sends[k].tempId {
        assert s.list[i].pending;
        var j :| 0 <= j < |s.sends| && s.sends[j] == Sent(s.list[i].id, s.list[i].text);
      }
    } else {
      NoPendingCountsZero(s.list, s.sends[k].text);
    }
  }

  lemma ReplyPending(s: State, k: nat, msg: Message, text: string)
    requires ListInv(s) && Legal(s, Reply(k, msg)) && OneTextPerTempId(s.sends)
    ensures var before, now := PendingCount(s.list, text), PendingCount(Apply(s, Reply(k, msg)).list, text);
            if s.sends[k].text == text then now == 0 || now < before else now == before
  {
    ReplySettlesItsText(s, k);
    SettlePending(s.list, ReplyIndex(s.list, s.sends[k].tempId, s.sends[k].text), s.sends[k], msg, text);
  }

  lemma SettlePending(list: List, i: int, sent: Sent, msg: Message, text: string)
    requires i == ReplyIndex(list, sent.tempId, sent.text) && FromServer(msg)
    requires if i >= 0 then list[i].pending && list[i].text == sent.text else PendingCount(list, sent.text) == 0
    ensures var before := PendingCount(list, text);
            var now := PendingCount(AfterReply(list, sent.tempId, sent.text, msg), text);
            if sent.text == text then now == 0 || now < before else now == before
  {
    var after := AfterReply(list, sent.tempId, sent.text, msg);
    if i >= 0 {
      RemovedPending(list, i, msg, text);
      assert after == Splice(list, i) || after == list[i := msg];
    } else {
      PendingCountPush(list, msg, text);
      assert after == list || after == list + [msg];
    }
  }

  /** Removing a pending entry and overwriting it lower the count of its text by one, and of no other. */
  lemma RemovedPending(list: List, i: nat, msg: Message, text: string)
    requires i < |list| && list[i].pending && FromServer(msg)
    ensures PendingCount(list, text) == PendingCount(Splice(list, i), text) + if list[i].text == text then 1 else 0
    ensures PendingCount(list[i := msg], text) == PendingCount(Splice(list, i), text)
  {
    PendingCountAt(list, i, msg, text);
  }

  lemma EchoPending(s: State, msg: Message, text: string)
    requires Legal(s, Echo(msg))
    ensures PendingCount(AfterEcho(s.list, msg), text) <= PendingCount(s.list, text)
  {
    var i := if msg.out then EchoIndex(s.list, msg.text) else -1;
    PendingCountPush(s.list, msg, text);
    if i >= 0 {
      PendingCountAt(s.list, i, msg, text);
    }
  }

  lemma {:induction false} RunBalanced(run: seq<Event>)
    requires Possible(run) && OneTextPerTempId(After(run).sends)
    ensures Balanced(After(run))
  {
    if run != [] {
      var n := |run| - 1;
      RunListInv(run[..n]);
      assert After(run[..n]).sends <= After(run).sends;
      RunBalanced(run[..n]);
      StepBalanced(After(run[..n]), run[n]);
    }
  }

  ghost predicate AllAnswered(s: State) {
    forall k | 0 <= k < |s.sends| :: k in s.answered
  }

  /** The rendered list has the ids of the list, each once. */
  lemma {:induction false} RenderedOnce(list: List)
    ensures forall id :: HasId(Rendered(list), id) <==> HasId(list, id)
    ensures forall i, j | 0 <= i < j < |Rendered(list)| :: Rendered(list)[i].id != Rendered(list)[j].id
  {
    if list != [] {
      var init, last := list[..|list| - 1], list[|list| - 1];
      RenderedOnce(init);
      assert list == init + [last];
      HasIdPush(init, last);
      HasIdPush(Rendered(init), last);
      var shown := Rendered(init);
      assert Rendered(list) == if HasId(init, last.id) then shown else shown + [last];
      assert forall i | 0 <= i < |shown| && shown[i].id == last.id :: HasId(shown, last.id);
    }
  }

  /** m is in the list, and no entry before it has its id. */
  ghost predicate IsFirstOfItsId(list: List, m: Message) {
    exists k :: 0 <= k < |list| && list[k] == m && forall j | 0 <= j < k :: list[j].id != m.id
  }

  /** Of several entries with one id the first is shown. */
  lemma {:induction false} RenderedFirst(list: List, i: nat)
    requires i < |Rendered(list)|
    ensures IsFirstOfItsId(list, Rendered(list)[i])
  {
    var init, last := list[..|list| - 1], list[|list| - 1];
    if i < |Rendered(init)| {
      RenderedFirst(init, i);
      var k :| 0 <= k < |init| && init[k] == Rendered(init)[i] && forall j | 0 <= j < k :: init[j].id != init[k].id;
      assert list[k] == Rendered(list)[i];
    } else {
      assert !HasId(init, last.id) && list[|list| - 1] == Rendered(list)[i];
      assert forall j | 0 <= j < |init| :: init[j] == list[j];
    }
  }

  lemma HasIdPush(list: List, m: Message)
    ensures forall id :: HasId(list + [m], id) <==> HasId(list, id) || id == m.id
  {
    forall id
      ensures HasId(list + [m], id) <==> HasId(list, id) || id == m.id
    {
      assert (list + [m])[|list|] == m;
      if i :| 0 <= i < |list| && list[i].id == id {
        assert (list + [m])[i].id == id;
      }
    }
  }

  // ----- what collisions of temporary ids do to the count

  lemma AfterOne(run: seq<Event>, e: Event)
    requires Possible(run) && Legal(After(run), e)
    ensures Possible(run + [e]) && After(run + [e]) == Apply(After(run), e)
  {
    assert (run + [e])[..|run|] == run;
  }

  predicate SendableAll(schedule: seq<Sent>) {
    forall i | 0 <= i < |schedule| :: schedule[i].tempId < 0 && !IsBlank(schedule[i].text)
  }

  /** Everything sent so far is answered and only delivered messages, with ids up to n, are listed. */
  ghost predicate Settled(s: State, n: int) {
    && ListInv(s) && AllAnswered(s)
    && forall i | 0 <= i < |s.list| :: !s.list[i].pending && 0 < s.list[i].id <= n
  }

  lemma SettleOne(s: State, what: Sent, msg: Message, n: nat)
    requires Settled(s, n) && Legal(s, Send(what)) && FromServer(msg) && msg.id == n + 1
    ensures var mid := Apply(s, Send(what));
            Legal(mid, Reply(|s.sends|, msg)) && Settled(Apply(mid, Reply(|s.sends|, msg)), n + 1)
  {
    var mid := Apply(s, Send(what));
    StepListInv(s, Send(what));
    StepListInv(mid, Reply(|s.sends|, msg));
    assert mid.list[|s.list|] == Optimistic(what.tempId, what.text);
    assert ReplyIndex(mid.list, what.tempId, what.text) == |s.list|;
  }

  lemma AnswerNext(before: seq<Event>, sent: Sent) returns (run: seq<Event>)
    requires Possible(before) && Settled(After(before), |After(before).sends|) && Legal(After(before), Send(sent))
    ensures Possible(run) && After(run).sends == After(before).sends + [sent] && Settled(After(run), |After(run).sends|)
  {
    var n := |After(before).sends|;
    var msg := Message(n + 1, sent.text, true, false);
    SettleOne(After(before), sent, msg, n);
    run := AfterTwo(before, Send(sent), Reply(n, msg));
  }

  /** A run that answers each of the first n sends of a schedule at once. */
  lemma {:induction false} AnswerEach(schedule: seq<Sent>, n: nat) returns (run: seq<Event>)
    requires n <= |schedule| && SendableAll(schedule)
    ensures Possible(run) && After(run).sends == schedule[..n] && Settled(After(run), n)
  {
    if n == 0 {
      run := [];
      NothingSent();
    } else {
      var before := AnswerEach(schedule, n - 1);
      var sent := schedule[n - 1];
      assert schedule[..n] == schedule[..n - 1] + [sent];
      run := AnswerNext(before, sent);
    }
  }

  lemma NothingSent()
    ensures Possible([]) && After([]) == EMPTY && Settled(EMPTY, 0)
  {
  }

  lemma AfterTwo(start: seq<Event>, a: Event, b: Event) returns (run: seq<Event>)
    requires Possible(start) && Legal(After(start), a) && Legal(Apply(After(start), a), b)
    ensures Possible(run) && After(run) == Apply(Apply(After(start), a), b)
  {
    AfterOne(start, a);
    AfterOne(start + [a], b);
    run := start + [a] + [b];
  }

  /** The schedule's temporary ids come from a clock that does not go back. */
  predicate ClockOrder(schedule: seq<Sent>) {
    forall i, j | 0 <= i < j < |schedule| :: schedule[i].tempId >= schedule[j].tempId
  }

  lemma {:induction false} AdjacentCollision(schedule: seq<Sent>, i: nat, j: nat) returns (k: nat)
    requires ClockOrder(schedule) && i < j < |schedule|
    requires schedule[i].tempId == schedule[j].tempId && schedule[i].text != schedule[j].text
    ensures k + 1 < |schedule|
    ensures schedule[k].tempId == schedule[k + 1].tempId && schedule[k].text != schedule[k + 1].text
    decreases j - i
  {
    assert schedule[i].tempId >= schedule[i + 1].tempId;
    assert i + 1 < j ==> schedule[i + 1].tempId >= schedule[j].tempId;
    if schedule[i].text != schedule[i + 1].text {
      k := i;
    } else {
      k := AdjacentCollision(schedule, i + 1, j);
    }
  }

  /** Two sends of different texts in one millisecond: answering the second first settles the entry of
      the first, and the second's entry is pending with nothing left to answer it. */
  lemma CollisionUnbalances(schedule: seq<Sent>, k: nat) returns (run: seq<Event>)
    requires SendableAll(schedule) && k + 1 < |schedule|
    requires schedule[k].tempId == schedule[k + 1].tempId && schedule[k].text != schedule[k + 1].text
    ensures Possible(run) && After(run).sends <= schedule && !Balanced(After(run))
  {
    var settled := AnswerEach(schedule, k);
    var a, b := schedule[k], schedule[k + 1];
    var reply := Message(k + 1, b.text, true, false);
    WrongEntrySettled(After(settled), a, b, reply);
    run := AfterThree(settled, Send(a), Send(b), Reply(k + 1, reply));
    UnbalancedAt(After(run), b.text);
    PrefixOfTwoMore(schedule, k);
  }

  lemma PrefixOfTwoMore(schedule: seq<Sent>, k: nat)
    requires k + 1 < |schedule|
    ensures schedule[..k] + [schedule[k]] + [schedule[k + 1]] <= schedule
  {
    assert schedule[..k] + [schedule[k]] + [schedule[k + 1]] == schedule[..k + 2];
  }

  lemma AfterThree(start: seq<Event>, a: Event, b: Event, c: Event) returns (run: seq<Event>)
    requires Possible(start) && Legal(After(start), a) && Legal(Apply(After(start), a), b)
    requires Legal(Apply(Apply(After(start), a), b), c)
    ensures Possible(run) && After(run) == Apply(Apply(Apply(After(start), a), b), c)
  {
    var run' := AfterTwo(start, a, b);
    AfterOne(run', c);
    run := run' + [c];
  }

  lemma UnbalancedAt(s: State, text: string)
    requires PendingCount(s.list, text) > |Unanswered(s, text)|
    ensures !Balanced(s)
  {
  }

  /** All settled, then a and b sent, then b answered. */
  lemma WrongEntrySettled(s: State, a: Sent, b: Sent, reply: Message)
    requires Settled(s, reply.id - 1) && FromServer(reply) && a.tempId == b.tempId && a.text != b.text
    requires Legal(s, Send(a)) && Legal(Apply(s, Send(a)), Send(b))
    ensures var both := Apply(Apply(s, Send(a)), Send(b));
            && Legal(both, Reply(|s.sends| + 1, reply))
            && var after := Apply(both, Reply(|s.sends| + 1, reply));
               PendingCount(after.list, b.text) == 1 && Unanswered(after, b.text) == {}
  {
    var n := |s.list|;
    var both := Apply(Apply(s, Send(a)), Send(b));
    var list := both.list;
    assert list[n] == Optimistic(a.tempId, a.text);
    assert ReplyIndex(list, b.tempId, b.text) == n;
    assert !HasId(list, reply.id);
    var after := Apply(both, Reply(|s.sends| + 1, reply));
    assert after.list == s.list + [reply] + [Optimistic(b.tempId, b.text)];
    NoPendingCountsZero(s.list, b.text);
    PendingCountPush(s.list, reply, b.text);
    PendingCountPush(s.list + [reply], Optimistic(b.tempId, b.text), b.text);
  }

  /** The exact condition: for a schedule of sends in clock order, pending entries never exceed unanswered
      sends in any interleaving of its sends with replies and echoes, if and only if no two sends of
      different texts share a millisecond. */
  lemma BalancedIffOneTextPerMillisecond(schedule: seq<Sent>)
    requires SendableAll(schedule) && ClockOrder(schedule)
    ensures (forall run | Possible(run) && After(run).sends <= schedule :: Balanced(After(run))) <==>
            OneTextPerTempId(schedule)
  {
    if OneTextPerTempId(schedule) {
      forall run | Possible(run) && After(run).sends <= schedule
        ensures Balanced(After(run))
      {
        RunBalanced(run);
      }
    } else {
      var i, j :| 0 <= i < |schedule| && 0 <= j < |schedule| && schedule[i].tempId == schedule[j].tempId
                  && schedule[i].text != schedule[j].text;
      var k := AdjacentCollision(schedule, if i < j then i else j, if i < j then j else i);
      var run := CollisionUnbalances(schedule, k);
    }
  }
}
