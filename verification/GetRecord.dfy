/** Reading a record from the network: votes per content, quorum, and the repair of a split.

    The content name is a collision-free hash of the value, so a record is its key and the name of
    its content. */
module GetRecord {
  import opened Common
  import opened Nearest

  const MAJORITY: nat := CLOSE_GROUP_SIZE / 2 + 1

  type Peer = nat
  type XorName = nat
  type QueryId = nat

  datatype Record = Record(key: nat, content: XorName)

  /** A copy found: from a peer, or (None) from this node itself; `count` is the progress reported. */
  datatype Event = Event(peer: Option<Peer>, record: Record, count: nat)

  datatype Reply = Found(record: Record) | RecordNotFound | RecordNotEnoughCopies(record: Record)

  type Votes = map<XorName, (Record, set<Peer>)>

  /** A query is open until a reply is sent; after that its events are ignored. */
  datatype Query = Open(votes: Votes) | Closed(reply: Reply, votes: Votes)

  function Voter(e: Event, me: Peer): Peer {
    if e.peer.Some? then e.peer.value else me
  }

  function Supporters(votes: Votes, name: XorName): set<Peer> {
    if name in votes then votes[name].1 else {}
  }

  /** Counts one more copy, and closes the query on a majority or when all copies have come in. */
  function Accumulate(votes: Votes, e: Event, me: Peer): Query {
    var name := e.record.content;
    var peers := Supporters(votes, name) + {Voter(e, me)};
    var votes' := votes[name := (e.record, peers)];
    if |peers| >= MAJORITY then Closed(Found(e.record), votes')
    else if e.count >= CLOSE_GROUP_SIZE then Closed(RecordNotFound, votes')
    else Open(votes')
  }

  // ---------- Histories of one query ----------

  function Process(events: seq<Event>, me: Peer): Query {
    if events == [] then Open(map[])
    else match Process(events[..|events| - 1], me)
      case Open(votes) => Accumulate(votes, events[|events| - 1], me)
      case Closed(reply, votes) => Closed(reply, votes)
  }

  /** The distinct peers that reported this content; a copy without a peer is this node's own. */
  ghost function Reporters(events: seq<Event>, me: Peer, name: XorName): set<Peer> {
    set e | e in events && e.record.content == name :: if e.peer.Some? then e.peer.value else me
  }

  lemma ReportersOfLast(events: seq<Event>, me: Peer, name: XorName)
    requires events != []
    ensures var last := events[|events| - 1];
      Reporters(events, me, name) ==
        Reporters(events[..|events| - 1], me, name) + if last.record.content == name then {Voter(last, me)} else {}
  {
  }

  /** The votes are exactly the reports: for every content, its distinct reporters. */
  ghost predicate Tallied(votes: Votes, events: seq<Event>, me: Peer) {
    && (forall name :: Supporters(votes, name) == Reporters(events, me, name))
    && (forall name :: name in votes ==> votes[name].0.content == name && votes[name].1 != {})
  }

  ghost predicate BelowMajority(votes: Votes) {
    forall name :: name in votes ==> |votes[name].1| < MAJORITY
  }

  lemma TallyOne(votes: Votes, events: seq<Event>, me: Peer, name: XorName)
    requires events != [] && Supporters(votes, name) == Reporters(events[..|events| - 1], me, name)
    ensures Supporters(Accumulate(votes, events[|events| - 1], me).votes, name) == Reporters(events, me, name)
  {
    ReportersOfLast(events, me, name);
  }

  /** Counting the last event keeps the tally right. */
  lemma AccumulateTallies(votes: Votes, events: seq<Event>, me: Peer)
    requires events != [] && Tallied(votes, events[..|events| - 1], me)
    ensures Tallied(Accumulate(votes, events[|events| - 1], me).votes, events, me)
  {
    var init := events[..|events| - 1];
    forall name: XorName
      ensures Supporters(Accumulate(votes, events[|events| - 1], me).votes, name) == Reporters(events, me, name)
    {
      assert Supporters(votes, name) == Reporters(init, me, name);
      TallyOne(votes, events, me, name);
    }
  }

  /** While a query is open, its votes are the tally of all its events and no content has a
      majority. */
  lemma {:induction false} OpenQuery(events: seq<Event>, me: Peer, votes: Votes)
    requires Process(events, me) == Open(votes)
    ensures Tallied(votes, events, me) && BelowMajority(votes)
  {
    if events == [] {
      forall name ensures Supporters(votes, name) == Reporters(events, me, name) {
      }
    } else {
      var init, last := events[..|events| - 1], events[|events| - 1];
      var before := Process(init, me).votes;
      OpenQuery(init, me, before);
      AccumulateTallies(before, events, me);
      AccumulateBelow(before, last, me);
    }
  }

  lemma AccumulateBelow(votes: Votes, e: Event, me: Peer)
    requires BelowMajority(votes) && Accumulate(votes, e, me).Open?
    ensures BelowMajority(Accumulate(votes, e, me).votes)
  {
  }

  /** The event that closed a query: everything before it left the query open. */
  lemma {:induction false} ClosingEvent(events: seq<Event>, me: Peer) returns (n: nat)
    requires Process(events, me).Closed?
    ensures n < |events| && Process(events[..n], me).Open?
    ensures Process(events, me) == Accumulate(Process(events[..n], me).votes, events[n], me)
  {
    var init := events[..|events| - 1];
    if Process(init, me).Closed? {
      n := ClosingEvent(init, me);
      assert init[..n] == events[..n];
    } else {
      n := |events| - 1;
    }
  }

  /** The n-th copy ends the query: its content has a majority by then, or all copies have come in. */
  ghost predicate Decisive(events: seq<Event>, n: nat, me: Peer)
    requires n < |events|
  {
    Majority(events, n, me) || events[n].count >= CLOSE_GROUP_SIZE
  }

  /** By the n-th copy a majority of distinct peers has reported its content. */
  ghost predicate Majority(events: seq<Event>, n: nat, me: Peer)
    requires n < |events|
  {
    |Reporters(events[..n + 1], me, events[n].record.content)| >= MAJORITY
  }

  ghost function DecisiveCopies(events: seq<Event>, me: Peer): set<nat> {
    set n | 0 <= n < |events| && Decisive(events, n, me)
  }

  /** A query is open exactly as long as no copy has been decisive. */
  lemma {:induction false} OpenExactly(events: seq<Event>, me: Peer)
    ensures Process(events, me).Open? <==> DecisiveCopies(events, me) == {}
  {
    if events != [] {
      var init, last := events[..|events| - 1], |events| - 1;
      OpenExactly(init, me);
      DecisiveBefore(events, init, me);
      assert Decisive(events, last, me) ==> last in DecisiveCopies(events, me);
      if Process(init, me).Open? {
        LastCopy(events, init, me);
        assert DecisiveCopies(events, me) <= {last};
      } else {
        var n :| n in DecisiveCopies(init, me);
        assert n in DecisiveCopies(events, me);
      }
    }
  }

  lemma DecisiveBefore(events: seq<Event>, init: seq<Event>, me: Peer)
    requires events != [] && init == events[..|events| - 1]
    ensures DecisiveCopies(init, me) == DecisiveCopies(events, me) - {|events| - 1}
  {
    forall n | 0 <= n < |init| ensures Decisive(init, n, me) <==> Decisive(events, n, me) {
      assert init[..n + 1] == events[..n + 1];
    }
  }

  /** What the last copy does to an open query. */
  lemma LastCopy(events: seq<Event>, init: seq<Event>, me: Peer)
    requires events != [] && init == events[..|events| - 1] && Process(init, me).Open?
    ensures var n := |events| - 1;
      && (Process(events, me).Closed? <==> Decisive(events, n, me))
      && (Process(events, me).Closed? ==>
            Process(events, me).reply == (if Majority(events, n, me) then Found(events[n].record) else RecordNotFound))
  {
    var last := events[|events| - 1];
    var votes := Process(init, me).votes;
    OpenQuery(init, me, votes);
    assert Supporters(votes, last.record.content) == Reporters(init, me, last.record.content);
    ReportersOfLast(events, me, last.record.content);
    assert events[..|events|] == events;
  }

  /** When and how a query is answered: by its first decisive copy, with the record when that has a
      majority, and with not found when only all the copies have come in. */
  lemma {:induction false} FirstDecisiveReplies(events: seq<Event>, me: Peer, n: nat)
    requires n in DecisiveCopies(events, me) && forall i :: i in DecisiveCopies(events, me) ==> n <= i
    ensures Process(events, me).Closed?
    ensures Process(events, me).reply == if Majority(events, n, me) then Found(events[n].record) else RecordNotFound
  {
    var init := events[..|events| - 1];
    OpenExactly(init, me);
    DecisiveBefore(events, init, me);
    if n < |init| {
      assert init[..n + 1] == events[..n + 1];
      assert n in DecisiveCopies(init, me);
      FirstDecisiveReplies(init, me, n);
    } else {
      LastCopy(events, init, me);
    }
  }

  /** A record is returned only when a majority of distinct peers has reported exactly its content,
      and then every other content is below the majority. */
  lemma FoundMeansMajority(events: seq<Event>, me: Peer)
    requires Process(events, me).Closed? && Process(events, me).reply.Found?
    ensures var Closed(reply, votes) := Process(events, me);
      var name := reply.record.content;
      && name in votes && votes[name].0 == reply.record
      && |votes[name].1| >= MAJORITY && votes[name].1 <= Reporters(events, me, name)
      && forall other :: other in votes && other != name ==> |votes[other].1| < MAJORITY
  {
    var n := ClosingEvent(events, me);
    var before := Process(events[..n], me).votes;
    OpenQuery(events[..n], me, before);
    var name := events[n].record.content;
    assert Supporters(before, name) == Reporters(events[..n], me, name);
    assert Reporters(events[..n], me, name) <= Reporters(events, me, name);
    assert Voter(events[n], me) in Reporters(events, me, name) by {
      assert events[n] in events;
    }
  }

  /** Peers hold fixed contents: every report of a peer in the group carries what that peer holds. */
  ghost predicate Honest(events: seq<Event>, me: Peer, group: set<Peer>, held: Peer -> XorName) {
    forall e :: e in events ==> Voter(e, me) in group && e.record.content == held(Voter(e, me))
  }

  ghost function Holders(group: set<Peer>, held: Peer -> XorName, name: XorName): set<Peer> {
    set p | p in group && held(p) == name
  }

  lemma MajorityHolds(events: seq<Event>, me: Peer, group: set<Peer>, held: Peer -> XorName)
    requires Honest(events, me, group, held)
    requires Process(events, me).Closed? && Process(events, me).reply.Found?
    ensures var name := Process(events, me).reply.record.content;
      |Holders(group, held, name)| >= MAJORITY
  {
    FoundMeansMajority(events, me);
    var name := Process(events, me).reply.record.content;
    SubsetSize(Process(events, me).votes[name].1, Holders(group, held, name));
  }

  /** Two queries answered by the same at most eight peers with fixed contents never return
      different contents. */
  lemma QueriesAgree(one: seq<Event>, two: seq<Event>, me: Peer, you: Peer, group: set<Peer>, held: Peer -> XorName)
    requires |group| <= CLOSE_GROUP_SIZE && Honest(one, me, group, held) && Honest(two, you, group, held)
    requires Process(one, me).Closed? && Process(one, me).reply.Found?
    requires Process(two, you).Closed? && Process(two, you).reply.Found?
    ensures Process(one, me).reply.record.content == Process(two, you).reply.record.content
  {
    var a, b := Process(one, me).reply.record.content, Process(two, you).reply.record.content;
    MajorityHolds(one, me, group, held);
    MajorityHolds(two, you, group, held);
    var s, t := Holders(group, held, a), Holders(group, held, b);
    SubsetSize(s + t, group);
    assert |s * t| == |s| + |t| - |s + t| > 0;
    var p :| p in s * t;
  }

  // ---------- Split votes ----------

  /** The most supported content, and among equals the one with the lowest name. */
  ghost predicate Winner(votes: Votes, name: XorName) {
    name in votes && forall n :: n in votes ==>
      |votes[n].1| < |votes[name].1| || (|votes[n].1| == |votes[name].1| && name <= n)
  }

  lemma WinnerUnique(votes: Votes, a: XorName, b: XorName)
    requires Winner(votes, a) && Winner(votes, b)
    ensures a == b
  {
  }

  /** When the query found a record, the winner of the votes is that record. */
  lemma FoundRecordWins(events: seq<Event>, me: Peer)
    requires Process(events, me).Closed? && Process(events, me).reply.Found?
    ensures var Closed(reply, votes) := Process(events, me);
      Winner(votes, reply.record.content) && votes[reply.record.content].0 == reply.record
  {
    FoundMeansMajority(events, me);
  }

  /** The loop over the votes, in any order: keeps the names tied for the highest count so far. */
  method SelectWinner(votes: Votes) returns (name: XorName)
    requires votes != map[]
    ensures Winner(votes, name)
  {
    var highestCount := 0;
    var highest: set<XorName> := {};
    var rest := votes.Keys;
    while rest != {}
      invariant rest <= votes.Keys && highest <= votes.Keys - rest
      invariant if rest == votes.Keys then highestCount == 0 else highest != {}
      invariant forall n :: n in votes && n !in rest ==>
        |votes[n].1| <= highestCount && (n in highest <==> |votes[n].1| == highestCount)
    {
      var n :| n in rest;
      rest := rest - {n};
      var count := |votes[n].1|;
      if count > highestCount {
        highest := {};
      }
      if count >= highestCount {
        highestCount := count;
        highest := highest + {n};
      }
    }
    var identity := (n: XorName) => n;
    assert Injective(identity) by {
      assert forall x, y :: Tied(identity, x, y) ==> x == y;
    }
    name := Least(highest, identity);
    assert forall n :: n in highest ==> identity(name) <= identity(n);
  }

  /** The repair that the split policy prescribes for closed votes. */
  ghost predicate Repaired(was: seq<Record>, now: seq<Record>, me: Peer, votes: Votes) {
    if |votes| == 1 || votes == map[] then now == was
    else exists name :: Winner(votes, name) && now == (if me in votes[name].1 then was else was + [votes[name].0])
  }

  /** When the query found a record, a repair writes exactly that record, and only if the contents
      differed and this node did not report it itself. */
  lemma RepairWritesFoundRecord(events: seq<Event>, me: Peer, was: seq<Record>, now: seq<Record>)
    requires Process(events, me).Closed? && Process(events, me).reply.Found?
    requires Repaired(was, now, me, Process(events, me).votes)
    ensures var Closed(reply, votes) := Process(events, me);
      now == if |votes| == 1 || me in Supporters(votes, reply.record.content) then was else was + [reply.record]
  {
    FoundRecordWins(events, me);
    var Closed(reply, votes) := Process(events, me);
    forall name | Winner(votes, name) ensures name == reply.record.content {
      WinnerUnique(votes, name, reply.record.content);
    }
  }

  // ---------- The driver ----------

  /** The pending queries whose votes are what their history of events leads to. */
  ghost function Tracked(pending: map<QueryId, Votes>, history: map<QueryId, seq<Event>>, me: Peer): set<QueryId> {
    set q | q in pending && q in history && Process(history[q], me) == Open(pending[q])
  }

  /** Every pending query has a history, and its votes are what that leads to. */
  ghost predicate InStep(pending: map<QueryId, Votes>, history: map<QueryId, seq<Event>>, me: Peer) {
    pending.Keys == history.Keys == Tracked(pending, history, me)
  }

  lemma {:induction false} TrackedReplace(pending: map<QueryId, Votes>, history: map<QueryId, seq<Event>>, me: Peer,
                                          q: QueryId, votes: Votes, events: seq<Event>)
    requires InStep(pending, history, me) && Process(events, me) == Open(votes)
    ensures InStep(pending[q := votes], history[q := events], me)
  {
    forall r | r in pending ensures r in Tracked(pending[q := votes], history[q := events], me) {
      assert r in Tracked(pending, history, me);
    }
  }

  lemma TrackedRemove(pending: map<QueryId, Votes>, history: map<QueryId, seq<Event>>, me: Peer, q: QueryId)
    requires InStep(pending, history, me)
    ensures InStep(pending - {q}, history - {q}, me)
  {
  }

  /** Sessions are numbered in the order in which queries are started.  The i-th reply went to the
      query of the session answered i-th, no session is answered twice, and a pending query belongs
      to a session of its own that has not been answered. */
  ghost predicate OneReplyEach(session: map<QueryId, nat>, started: seq<QueryId>, answered: seq<nat>,
                               replies: seq<(QueryId, Reply)>)
  {
    && |answered| == |replies| && NoRepeats(answered)
    && (forall i :: 0 <= i < |answered| ==> answered[i] < |started| && started[answered[i]] == replies[i].0)
    && (forall q :: q in session ==> session[q] < |started| && started[session[q]] == q && session[q] !in answered)
  }

  lemma SessionAnswered(session: map<QueryId, nat>, started: seq<QueryId>, answered: seq<nat>,
                        replies: seq<(QueryId, Reply)>, q: QueryId, reply: Reply)
    requires OneReplyEach(session, started, answered, replies) && q in session
    ensures OneReplyEach(session - {q}, started, answered + [session[q]], replies + [(q, reply)])
  {
    forall p | p in session && p != q ensures session[p] !in answered + [session[q]] {
      assert started[session[p]] == p && started[session[q]] == q;
    }
  }

  lemma SessionStarted(session: map<QueryId, nat>, started: seq<QueryId>, answered: seq<nat>,
                       replies: seq<(QueryId, Reply)>, q: QueryId)
    requires OneReplyEach(session, started, answered, replies)
    ensures OneReplyEach(session[q := |started|], started + [q], answered, replies)
  {
  }

  class Driver {
    const me: Peer
    var pending: map<QueryId, Votes>
    /** Effects: replies sent, and records written to the own store to repair a split. */
    var replies: seq<(QueryId, Reply)>
    var repairs: seq<Record>
    /** History: each start of a query is a new session with its own reply channel. */
    ghost var started: seq<QueryId>
    ghost var session: map<QueryId, nat>
    ghost var answered: seq<nat>
    ghost var history: map<QueryId, seq<Event>>

    ghost predicate Valid()
      reads this
    {
      && session.Keys == pending.Keys && InStep(pending, history, me)
      && OneReplyEach(session, started, answered, replies)
    }

    constructor (me: Peer)
      ensures Valid() && this.me == me && pending == map[] && replies == [] && repairs == []
    {
      this.me := me;
      pending, replies, repairs := map[], [], [];
      started, session, answered, history := [], map[], [], map[];
    }

    /** Starts a query; a query already pending under this id is dropped without a reply. */
    method GetNetworkRecord(q: QueryId)
      requires Valid()
      modifies this
      ensures Valid() && pending == old(pending)[q := map[]] && replies == old(replies) && repairs == old(repairs)
    {
      TrackedReplace(pending, history, me, q, map[], []);
      SessionStarted(session, started, answered, replies, q);
      pending := pending[q := map[]];
      history := history[q := []];
      session := session[q := |started|];
      started := started + [q];
    }

    /** Sends the reply of a pending query and forgets the query. */
    method Answer(q: QueryId, reply: Reply)
      requires Valid() && q in pending
      modifies this
      ensures Valid() && pending == old(pending) - {q} && replies == old(replies) + [(q, reply)]
      ensures repairs == old(repairs) && answered == old(answered) + [old(session)[q]]
    {
      TrackedRemove(pending, history, me, q);
      SessionAnswered(session, started, answered, replies, q, reply);
      replies := replies + [(q, reply)];
      answered := answered + [session[q]];
      pending, session, history := pending - {q}, session - {q}, history - {q};
    }

    /** Writes the winner of a split vote to the own store, unless this node already holds it. */
    method TryUpdateSelfForSplitRecord(votes: Votes)
      modifies this`repairs
      ensures Repaired(old(repairs), repairs, me, votes)
    {
      if |votes| == 1 || votes == map[] {
        return;
      }
      var name := SelectWinner(votes);
      if me !in votes[name].1 {
        repairs := repairs + [votes[name].0];
      }
    }

    /** Puts a query that is still open back with its new votes. */
    method KeepOpen(q: QueryId, votes: Votes, ghost events: seq<Event>)
      requires Valid() && q in pending && Process(events, me) == Open(votes)
      modifies this`pending, this`history
      ensures Valid() && pending == old(pending)[q := votes]
    {
      TrackedReplace(pending, history, me, q, votes, events);
      pending := pending[q := votes];
      history := history[q := events];
    }

    /** A copy was found.  An unknown query ignores it; otherwise it is counted, and a closing copy
        sends the reply and repairs a split. */
    method AccumulateGetRecordOk(q: QueryId, e: Event)
      requires Valid()
      modifies this
      ensures Valid()
      ensures q !in old(pending) ==> unchanged(this)
      ensures q in old(pending) ==>
        match Accumulate(old(pending)[q], e, me)
        case Open(votes) => pending == old(pending)[q := votes] && replies == old(replies) && repairs == old(repairs)
        case Closed(reply, votes) =>
          && pending == old(pending) - {q} && replies == old(replies) + [(q, reply)]
          && Repaired(old(repairs), repairs, me, votes)
          && (reply.Found? ==> repairs == old(repairs) || repairs == old(repairs) + [reply.record])
    {
      if q !in pending {
        return;
      }
      var next := Accumulate(pending[q], e, me);
      NextInHistory(q, e);
      ghost var events := history[q] + [e];
      if next.Open? {
        KeepOpen(q, next.votes, events);
      } else {
        Close(q, next.reply, next.votes, events);
      }
    }

    /** Replies and repairs; when a record was found, a repair writes exactly that record. */
    method Close(q: QueryId, reply: Reply, votes: Votes, ghost events: seq<Event>)
      requires Valid() && q in pending && Process(events, me) == Closed(reply, votes)
      modifies this
      ensures Valid() && pending == old(pending) - {q} && replies == old(replies) + [(q, reply)]
      ensures Repaired(old(repairs), repairs, me, votes)
      ensures reply.Found? ==> repairs == old(repairs) || repairs == old(repairs) + [reply.record]
    {
      Answer(q, reply);
      TryUpdateSelfForSplitRecord(votes);
      if reply.Found? {
        RepairWritesFoundRecord(events, me, old(repairs), repairs);
      }
    }

    lemma NextInHistory(q: QueryId, e: Event)
      requires Valid() && q in pending
      ensures q in history && Process(history[q] + [e], me) == Accumulate(pending[q], e, me)
    {
    }

    /** While a query is pending, its votes are the tally of its events and below the majority. */
    lemma PendingBelowMajority(q: QueryId)
      requires Valid() && q in pending
      ensures Tallied(pending[q], history[q], me) && BelowMajority(pending[q])
    {
      assert q in Tracked(pending, history, me);
      OpenQuery(history[q], me, pending[q]);
    }

    /** The query ended early: some record seen so far is returned as an error, or none was found. */
    method Finished(q: QueryId)
      requires Valid()
      modifies this
      ensures Valid() && repairs == old(repairs)
      ensures q !in old(pending) ==> unchanged(this)
      ensures q in old(pending) ==>
        && pending == old(pending) - {q} && |replies| == |old(replies)| + 1 && replies[..|old(replies)|] == old(replies)
        && var (id, reply) := replies[|old(replies)|];
        && id == q
        && if old(pending)[q] == map[] then reply == RecordNotFound
           else reply.RecordNotEnoughCopies? && exists n :: n in old(pending)[q] && old(pending)[q][n].0 == reply.record
    {
      if q !in pending {
        return;
      }
      if pending[q] == map[] {
        Answer(q, RecordNotFound);
      } else {
        var n :| n in pending[q];
        Answer(q, RecordNotEnoughCopies(pending[q][n].0));
      }
    }

    method Failed(q: QueryId)
      requires Valid()
      modifies this
      ensures Valid() && repairs == old(repairs)
      ensures q !in old(pending) ==> unchanged(this)
      ensures q in old(pending) ==> pending == old(pending) - {q} && replies == old(replies) + [(q, RecordNotFound)]
    {
      if q in pending {
        Answer(q, RecordNotFound);
      }
    }
  }
}
