/**
 The application object of the OTP webhook: the receipt table and the critical sections that
 deliverOnce runs under its mutex, each proved to be the protocol step of the same name.
 */
module DeliveryApp {
  import opened Wrappers
  import P = DeliveryProtocol

  /** One receipt.  Waiters keep their reference after the table has dropped it. */
  class Receipt {
    const fingerprint: P.Digest
    const expiresAt: int
    var messageID: string
    var err: Option<string>
    var completed: bool
    ghost const id: string
    ghost const serial: nat
    ghost var closes: nat

    constructor (ghost serial: nat, ghost id: string, fingerprint: P.Digest, expiresAt: int)
      ensures this.serial == serial
      ensures View() == P.Receipt(id, fingerprint, expiresAt, None, 0)
    {
      this.serial, this.id := serial, id;
      this.fingerprint, this.expiresAt := fingerprint, expiresAt;
      this.messageID, this.err, this.completed, this.closes := "", None, false, 0;
    }

    ghost function View(): P.Receipt
      reads this
    {
      P.Receipt(id, fingerprint, expiresAt, if completed then Some(P.Outcome(messageID, err)) else None, closes)
    }
  }

  datatype Role = Leader | Follower | Conflict

  class Application {
    var receipts: map<string, Receipt>
    ghost var issued: seq<Receipt>

    ghost predicate Valid()
      reads this, issued
    {
      && (forall i | 0 <= i < |issued| :: issued[i].serial == i)
      && (forall id | id in receipts :: receipts[id] in issued)
    }

    /** What the protocol sees of this object. */
    ghost function View(): P.Shared
      requires Valid()
      reads this, issued
    {
      P.Shared(seq(|issued|, i requires 0 <= i < |issued| reads this, issued => issued[i].View()),
               map id | id in receipts :: receipts[id].serial)
    }

    constructor ()
      ensures Valid() && View() == P.Shared([], map[])
    {
      receipts, issued := map[], [];
    }

    /** Drops the receipts that are finished and expired, one by one. */
    method Sweep(now: int)
      requires Valid()
      modifies this`receipts
      ensures Valid() && View() == P.Sweep(old(View()), now)
      ensures receipts.Keys <= old(receipts).Keys && forall id | id in receipts :: receipts[id] == old(receipts[id])
      ensures forall id | id in old(receipts) ::
                id in receipts <==> !old(receipts[id]).completed || now < old(receipts[id]).expiresAt
    {
      ghost var was, before := View(), receipts;
      var ids := receipts.Keys;
      while ids != {}
        invariant SweptBut(receipts, before, ids, now)
        decreases |ids|
      {
        var id :| id in ids;
        var existing := receipts[id];
        SweptOneMore(receipts, before, ids, id, now);
        if existing.completed && existing.expiresAt <= now {
          receipts := receipts - {id};
        }
        ids := ids - {id};
      }
      SweptView(was, before, now);
    }

    /** Of the table `before`, all but the ids still to be looked at have been dealt with. */
    ghost predicate SweptBut(kept: map<string, Receipt>, before: map<string, Receipt>, ids: set<string>, now: int)
      reads before.Values
    {
      && ids <= kept.Keys <= before.Keys
      && (forall id | id in kept :: kept[id] == before[id] && (id in ids || !P.Stale(before[id].View(), now)))
      && (forall id | id in before && id !in kept :: P.Stale(before[id].View(), now))
    }

    lemma SweptOneMore(kept: map<string, Receipt>, before: map<string, Receipt>, ids: set<string>, id: string, now: int)
      requires SweptBut(kept, before, ids, now) && id in ids
      ensures SweptBut(if P.Stale(before[id].View(), now) then kept - {id} else kept, before, ids - {id}, now)
    {
    }

    /** The table that the loop leaves behind is the swept one. */
    lemma SweptView(was: P.Shared, before: map<string, Receipt>, now: int)
      requires receipts.Keys <= before.Keys
      requires forall id | id in receipts :: receipts[id] == before[id] && !P.Stale(receipts[id].View(), now)
      requires forall id | id in before && id !in receipts :: P.Stale(before[id].View(), now)
      requires forall id | id in before :: before[id] in issued
      requires forall i | 0 <= i < |issued| :: issued[i].serial == i
      requires |was.issued| == |issued| && forall i | 0 <= i < |issued| :: was.issued[i] == issued[i].View()
      requires was.table == map id | id in before :: before[id].serial
      ensures Valid() && View() == P.Sweep(was, now)
    {
      assert View().issued == was.issued;
      forall id | id in before
        ensures was.issued[was.table[id]] == before[id].View()
      {
      }
      assert View().table == P.Sweep(was, now).table;
    }

    /** The first critical section: sweep, look the id up, insert a receipt if there is none. */
    method Enter(req: P.Request, now: int) returns (role: Role, receipt: Receipt)
      requires Valid()
      modifies this
      ensures Valid() && receipt in issued
      ensures role == Leader ==> fresh(receipt) && issued == old(issued) + [receipt]
      ensures role != Leader ==> issued == old(issued)
      ensures var (shared, entry) := P.Enter(old(View()), req, now);
              View() == shared
              && match role
                 case Leader => entry == P.Lead(receipt.serial)
                 case Follower => entry == P.Join(receipt.serial)
                 case Conflict => entry == P.Refuse(receipt.serial)
    {
      Sweep(now);
      if req.id in receipts {
        receipt := receipts[req.id];
        role := if receipt.fingerprint != P.Sha256(req.body) then Conflict else Follower;
      } else {
        receipt := Issue(req.id, P.Sha256(req.body), req.expiresAt);
        role := Leader;
      }
    }

    method Issue(id: string, fingerprint: P.Digest, expiresAt: int) returns (receipt: Receipt)
      requires Valid()
      modifies this
      ensures Valid() && fresh(receipt) && issued == old(issued) + [receipt] && receipt.serial == |old(issued)|
      ensures var was := old(View());
              View() ==
                P.Shared(was.issued + [P.Receipt(id, fingerprint, expiresAt, None, 0)], was.table[id := receipt.serial])
    {
      ghost var was := View();
      receipt := new Receipt(|issued|, id, fingerprint, expiresAt);
      issued := issued + [receipt];
      receipts := receipts[id := receipt];
      assert View().issued == was.issued + [receipt.View()];
    }

    /** The second critical section: publish the outcome and close the channel. */
    method Finish(current: Receipt, outcome: P.Outcome)
      requires Valid() && current in issued
      modifies current
      ensures Valid() && View() == P.Finish(old(View()), current.serial, outcome)
    {
      current.messageID := outcome.messageID;
      current.err := outcome.error;
      current.completed := true;
      current.closes := current.closes + 1;
      assert View().issued == P.Finish(old(View()), current.serial, outcome).issued;
    }

    /** The third critical section: a woken waiter reads the outcome from the receipt it kept. */
    method Collect(existing: Receipt) returns (outcome: P.Outcome)
      requires Valid() && existing in issued && existing.completed
      ensures View().issued[existing.serial].outcome == Some(outcome)
    {
      outcome := P.Outcome(existing.messageID, existing.err);
    }
  }
}
