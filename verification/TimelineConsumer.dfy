/** The way of a published video onto the global timeline: its outbox row is relayed as an event, and
    the consumer adds the video with its create time as the score and trims the rest.
 */
module TimelineConsumer {
  import opened Ranking
  import opened FollowingIndex
  import opened OutboxRelay

  datatype Settlement = Acked | Dropped | Requeued

  /** What becomes of the two commands for one delivery: each may run or not, and each may be reported
      as failed either way. */
  datatype Fortune = Fortune(added: bool, addReported: bool, trimmed: bool, trimReported: bool)

  /** The sorted set; `place` is where Redis keeps the text of an id among equal scores. */
  class Timeline {
    var members: set<Key>
    const place: nat -> int

    constructor (place: nat -> int)
      ensures members == {} && this.place == place
    {
      members := {};
      this.place := place;
    }

    /** One delivery: anything but a timeline event of a video is dropped, an event is acknowledged when
        both commands are reported done, and comes again otherwise. */
    method Consume(m: Message, fortune: Fortune) returns (settlement: Settlement, ghost steps: seq<TimelineStep>)
      requires fortune.addReported ==> fortune.added
      requires fortune.trimReported ==> fortune.trimmed
      modifies this
      ensures members == TimelineRun(old(members), steps, 1000)
      ensures settlement.Dropped? <==> !m.body.TimelineEvent? || m.body.video == 0
      ensures settlement.Dropped? ==> steps == []
      ensures settlement.Acked? <==> !settlement.Dropped? && fortune.addReported && fortune.trimReported
      ensures !settlement.Dropped? ==>
                Added(steps) <= {Key(m.body.created, place(m.body.video), m.body.video)}
      ensures settlement.Acked? ==>
                && Added(steps) == {Key(m.body.created, place(m.body.video), m.body.video)}
                && steps != [] && steps[|steps| - 1] == Trim
    {
      steps := [];
      if !m.body.TimelineEvent? || m.body.video == 0 {
        return Dropped, [];
      }
      var key := Key(m.body.created, place(m.body.video), m.body.video);
      if fortune.added {
        OneStep(members, Add(key));
        members := (set k | k in members && k.id != key.id) + {key};
        steps := [Add(key)];
      }
      if !fortune.addReported {
        return Requeued, steps;
      }
      if fortune.trimmed {
        OneStep(members, Trim);
        RunThenTrim(old(members), steps, TIMELINE_CAPACITY);
        AddedSplit(steps, [Trim]);
        members := Newest(members, TIMELINE_CAPACITY);
        steps := steps + [Trim];
      }
      if !fortune.trimReported {
        return Requeued, steps;
      }
      return Settlement.Acked, steps;
    }

    /** Deliveries, in any order, repeated in any way. */
    method ConsumeAll(deliveries: seq<(Message, Fortune)>) returns (ghost acked: set<Message>, ghost steps: seq<TimelineStep>)
      requires forall d :: d in deliveries ==>
                 (d.1.addReported ==> d.1.added) && (d.1.trimReported ==> d.1.trimmed)
      modifies this
      ensures members == TimelineRun(old(members), steps, 1000)
      ensures forall k :: k in Added(steps) ==>
                exists d :: d in deliveries && d.0.body.TimelineEvent? && d.0.body.video != 0
                            && k == Key(d.0.body.created, place(d.0.body.video), d.0.body.video)
      ensures forall m :: m in acked ==>
                m.body.TimelineEvent? && m.body.video != 0
                && Key(m.body.created, place(m.body.video), m.body.video) in Added(steps)
      ensures acked == set d | d in deliveries && d.0.body.TimelineEvent? && d.0.body.video != 0
                                && d.1.addReported && d.1.trimReported :: d.0
    {
      acked, steps := {}, [];
      for i := 0 to |deliveries|
        invariant members == TimelineRun(old(members), steps, 1000)
        invariant forall k :: k in Added(steps) ==>
                    exists d :: d in deliveries[..i] && d.0.body.TimelineEvent? && d.0.body.video != 0
                                && k == Key(d.0.body.created, place(d.0.body.video), d.0.body.video)
        invariant forall m :: m in acked ==>
                    m.body.TimelineEvent? && m.body.video != 0
                    && Key(m.body.created, place(m.body.video), m.body.video) in Added(steps)
        invariant acked == set d | d in deliveries[..i] && d.0.body.TimelineEvent? && d.0.body.video != 0
                                    && d.1.addReported && d.1.trimReported :: d.0
      {
        var settlement;
        ghost var more;
        assert deliveries[..i + 1] == deliveries[..i] + [deliveries[i]];
        assert deliveries[i] in deliveries;
        settlement, more := Consume(deliveries[i].0, deliveries[i].1);
        RunSplit(old(members), steps, more);
        AddedSplit(steps, more);
        steps := steps + more;
        if settlement.Acked? {
          acked := acked + {deliveries[i].0};
        }
      }
      assert deliveries[..|deliveries|] == deliveries;
    }
  }

  lemma OneStep(members: set<Key>, step: TimelineStep)
    ensures TimelineRun(members, [step], 1000) == TimelineNext(members, step, 1000)
    ensures Added([step]) == if step.Add? then {step.key} else {}
  {
    assert [step][1..] == [];
  }

  lemma {:induction false} AddedSplit(a: seq<TimelineStep>, b: seq<TimelineStep>)
    ensures Added(a + b) == Added(a) + Added(b)
  {
    if a == [] {
      assert a + b == b;
    } else {
      assert (a + b)[0] == a[0] && (a + b)[1..] == a[1..] + b;
      AddedSplit(a[1..], b);
    }
  }

  lemma {:induction false} RunSplit(members: set<Key>, a: seq<TimelineStep>, b: seq<TimelineStep>)
    ensures TimelineRun(members, a + b, 1000) == TimelineRun(TimelineRun(members, a, 1000), b, 1000)
    decreases |a|
  {
    if a == [] {
      assert a + b == b;
    } else {
      assert (a + b)[0] == a[0] && (a + b)[1..] == a[1..] + b;
      RunSplit(TimelineNext(members, a[0], 1000), a[1..], b);
    }
  }

  /** Every published video gets there with its own create time, and nothing else does: once the pollers
      have emptied the table of video rows, and every event they sent has been acknowledged, the keys
      added are exactly those of the rows that have ever been there. */
  lemma TimelineGetsVideos(all: map<nat, OutboxRow>, rows: map<nat, OutboxRow>, sent: set<Message>, others: set<Message>,
                           place: nat -> int, deliveries: seq<(Message, Fortune)>, acked: set<Message>, steps: seq<TimelineStep>)
    requires NothingLost(all, rows, sent, sent, others)
    requires forall id :: id in rows ==> rows[id].exchange != ""
    requires forall m :: m in sent + others && m.body.TimelineEvent? && m.body.video != 0 ==> m in acked
    requires forall d :: d in deliveries ==> d.0 in sent + others
    requires forall k :: k in Added(steps) ==>
               exists d :: d in deliveries && d.0.body.TimelineEvent? && d.0.body.video != 0
                           && k == Key(d.0.body.created, place(d.0.body.video), d.0.body.video)
    requires forall m :: m in acked ==>
               m.body.TimelineEvent? && m.body.video != 0
               && Key(m.body.created, place(m.body.video), m.body.video) in Added(steps)
    ensures forall k :: k in Added(steps) <==>
              exists id :: id in all && all[id].exchange == "" && all[id].video != 0
                           && k == Key(all[id].created, place(all[id].video), all[id].video)
  {
    forall id | id in all && all[id].exchange == "" && all[id].video != 0
      ensures Key(all[id].created, place(all[id].video), all[id].video) in Added(steps)
    {
      assert id !in rows;
      assert MessageOf(id, all[id]) in sent + others;
    }
    forall k | k in Added(steps)
      ensures exists id :: id in all && all[id].exchange == "" && all[id].video != 0
                           && k == Key(all[id].created, place(all[id].video), all[id].video)
    {
      var d :| d in deliveries && d.0.body.TimelineEvent? && d.0.body.video != 0
               && k == Key(d.0.body.created, place(d.0.body.video), d.0.body.video);
      assert IsRow(all, d.0);
      var id :| id in all && d.0 == MessageOf(id, all[id]);
    }
  }

  /** The poller's run, and then the consumer's.  If it leaves no video row, and the deliveries are of
      what was sent and acknowledge every event of it, the keys added to the timeline are exactly the
      create times and ids of the videos whose rows were there at the start or came in between. */
  method RelayAndConsume(outbox: Outbox, publisher: ConfirmedPublisher, turns: seq<Turn>, timeline: Timeline,
                         deliveries: seq<(Message, Fortune)>)
    returns (made: nat, ghost sent: seq<Message>, ghost others: set<Message>, ghost steps: seq<TimelineStep>)
    requires FreshIds(outbox.rows, turns) && publisher.queued == []
    requires forall d :: d in deliveries ==> (d.1.addReported ==> d.1.added) && (d.1.trimReported ==> d.1.trimmed)
    modifies outbox`rows, outbox`locked, publisher, timeline
    ensures made <= |turns| && publisher.queued == sent
    ensures timeline.members == TimelineRun(old(timeline.members), steps, 1000)
    ensures (forall id :: id in outbox.rows ==> outbox.rows[id].exchange != "")
            && (forall d :: d in deliveries ==> d.0 in sent || d.0 in others)
            && (forall m :: (m in sent || m in others) && m.body.TimelineEvent? && m.body.video != 0 ==>
                  exists d :: d in deliveries && d.0 == m && d.1.addReported && d.1.trimReported) ==>
              forall k :: k in Added(steps) <==> exists id :: VideoRow(old(outbox.rows), turns, made, timeline.place, id, k)
  {
    var ok;
    ghost var acked;
    ok, made, sent, others := outbox.RunOutboxPoller(publisher, turns);
    acked, steps := timeline.ConsumeAll(deliveries);
    if Emptied(outbox.rows, sent, others, deliveries) {
      RunReachesTimeline(old(outbox.rows), turns, made, outbox.rows, sent, others, timeline.place, deliveries, acked, steps);
    }
  }

  /** No video row is left, and the deliveries acknowledge every event that was sent and nothing else. */
  ghost predicate Emptied(rows: map<nat, OutboxRow>, sent: seq<Message>, others: set<Message>, deliveries: seq<(Message, Fortune)>) {
    && (forall id :: id in rows ==> rows[id].exchange != "")
    && (forall d :: d in deliveries ==> d.0 in sent || d.0 in others)
    && (forall m :: (m in sent || m in others) && m.body.TimelineEvent? && m.body.video != 0 ==>
          exists d :: d in deliveries && d.0 == m && d.1.addReported && d.1.trimReported)
  }

  lemma RunReachesTimeline(start: map<nat, OutboxRow>, turns: seq<Turn>, made: nat, rows: map<nat, OutboxRow>,
                           sent: seq<Message>, others: set<Message>, place: nat -> int,
                           deliveries: seq<(Message, Fortune)>, acked: set<Message>, steps: seq<TimelineStep>)
    requires FreshIds(start, turns) && made <= |turns|
    requires NothingLost(EverThere(start, turns, made), rows, MessagesOf(sent), MessagesOf(sent), others)
    requires Emptied(rows, sent, others, deliveries)
    requires acked == set d | d in deliveries && d.0.body.TimelineEvent? && d.0.body.video != 0
                              && d.1.addReported && d.1.trimReported :: d.0
    requires forall k :: k in Added(steps) ==>
               exists d :: d in deliveries && d.0.body.TimelineEvent? && d.0.body.video != 0
                           && k == Key(d.0.body.created, place(d.0.body.video), d.0.body.video)
    requires forall m :: m in acked ==>
               m.body.TimelineEvent? && m.body.video != 0
               && Key(m.body.created, place(m.body.video), m.body.video) in Added(steps)
    ensures forall k :: k in Added(steps) <==> exists id :: VideoRow(start, turns, made, place, id, k)
  {
    var all := EverThere(start, turns, made);
    TimelineGetsVideos(all, rows, MessagesOf(sent), others, place, deliveries, acked, steps);
    forall k ensures k in Added(steps) <==> exists id :: VideoRow(start, turns, made, place, id, k) {
      RowsOfRun(start, turns, made, place, k);
    }
  }

  lemma RowsOfRun(start: map<nat, OutboxRow>, turns: seq<Turn>, made: nat, place: nat -> int, k: Key)
    requires FreshIds(start, turns) && made <= |turns|
    ensures forall id :: VideoRow(start, turns, made, place, id, k) <==>
              var all := EverThere(start, turns, made);
              id in all && all[id].exchange == "" && all[id].video != 0
              && k == Key(all[id].created, place(all[id].video), all[id].video)
  {
    var all := EverThere(start, turns, made);
    forall id ensures VideoRow(start, turns, made, place, id, k) <==>
                        id in all && all[id].exchange == "" && all[id].video != 0
                        && k == Key(all[id].created, place(all[id].video), all[id].video) {
      EverThereHolds(start, turns, made, id);
    }
  }

  /** k is the key of the video of a row that was there at the start or came with a turn. */
  ghost predicate VideoRow(start: map<nat, OutboxRow>, turns: seq<Turn>, made: nat, place: nat -> int, id: nat, k: Key) {
    || (id in start && IsVideo(start[id], place, k))
    || (exists i :: 0 <= i < made && i < |turns| && id in turns[i].added && IsVideo(turns[i].added[id], place, k))
  }

  ghost predicate IsVideo(row: OutboxRow, place: nat -> int, k: Key) {
    row.exchange == "" && row.video != 0 && k == Key(row.created, place(row.video), row.video)
  }
}
