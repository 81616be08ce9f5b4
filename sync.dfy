/** The Origin/Shadow pair of `OriginTimeline.js` and `ShadowTimeline.js`:
    an origin timeline drives shadows over message ports. On every tick the
    origin sends each shadow its clock; a shadow that has not yet answered
    the previous tick gets the new one queued instead, in a queue that keeps
    only the two most recent. A shadow adopts the clock it is sent, takes a
    single step with it and answers `done`, and the origin then sends the
    oldest queued tick, if any.

    A port is modelled by what was posted to it, in order; the per-shadow
    records the origin keeps are values in its `shadows` sequence. */
module Sync {
  import opened Base
  import opened LegacyTracks
  import opened LegacyTimelines

  /** `MAX_WAIT_QUEUE`: at most this many ticks wait for one shadow. */
  const MaxWaitQueue: nat := 2

  /** `__timeline_type`. */
  datatype MsgKind = InitMsg | TickMsg | DoneMsg | EndMsg | OtherMsg

  /** `__timeline_msg`: the configuration an origin hands out, the clock a
      tick carries, or nothing (a `done` receipt). */
  datatype Payload =
    | ConfigPayload(config: LegacyConfig)
    | TimePayload(currentTime: real, duration: Ext, referenceTime: real)
    | NoPayload

  /** A message between an origin and a shadow: its type, the timeline id
      `__timeline_id`, the shadow id `__timeline_shadow_id` and the body. */
  datatype Message = Message(kind: MsgKind, timelineId: Key, shadowId: Key, payload: Payload)

  /** What the origin keeps per shadow: the shadow's id, whether a tick is
      out waiting for its `done`, the ticks queued meanwhile (the oldest
      first), and everything posted to the shadow's port so far. */
  datatype Link = Link(id: real, waiting: bool, queue: seq<Message>, posted: seq<Message>)

  /** The queue is bounded, and nothing waits unless a tick is out: the
      state the origin's error log (`waiting` false with a non-empty queue)
      never observes. */
  predicate Sane(l: Link) {
    |l.queue| <= MaxWaitQueue && (!l.waiting ==> l.queue == [])
  }

  /** `a` is `b` with some elements left out, the rest in order. */
  predicate Subseq<T(==)>(a: seq<T>, b: seq<T>)
    decreases |b|
  {
    if a == [] then true
    else if b == [] then false
    else (a[0] == b[0] && Subseq(a[1..], b[1..])) || Subseq(a, b[1..])
  }

  lemma {:induction false} SubseqRefl<T>(a: seq<T>)
    ensures Subseq(a, a)
    decreases |a|
  {
    if a != [] {
      SubseqRefl(a[1..]);
    }
  }

  /** The same element may be added at the end of both sides. */
  lemma {:induction false} SubseqSnoc<T>(a: seq<T>, b: seq<T>, m: T)
    requires Subseq(a, b)
    ensures Subseq(a + [m], b + [m])
    decreases |b|
  {
    if a == [] {
      if b != [] {
        SubseqSnoc([], b[1..], m);
        assert (b + [m])[1..] == b[1..] + [m];
      }
    } else if a[0] == b[0] && Subseq(a[1..], b[1..]) {
      SubseqSnoc(a[1..], b[1..], m);
      assert (a + [m])[1..] == a[1..] + [m];
      assert (b + [m])[1..] == b[1..] + [m];
    } else {
      SubseqSnoc(a, b[1..], m);
      assert (b + [m])[1..] == b[1..] + [m];
    }
  }

  /** Leaving one more element out keeps a subsequence. */
  lemma {:induction false} SubseqDrop<T>(a: seq<T>, x: T, c: seq<T>, b: seq<T>)
    requires Subseq(a + [x] + c, b)
    ensures Subseq(a + c, b)
    decreases |b|
  {
    if a == [] {
      assert a + [x] + c == [x] + c && a + c == c;
      if x == b[0] && Subseq(c, b[1..]) {
        SubseqWiden(c, b);
      } else {
        SubseqDrop([], x, c, b[1..]);
        SubseqWiden(c, b);
      }
    } else if a[0] == b[0] && Subseq((a + [x] + c)[1..], b[1..]) {
      assert (a + [x] + c)[1..] == a[1..] + [x] + c;
      SubseqDrop(a[1..], x, c, b[1..]);
      assert (a + c)[1..] == a[1..] + c;
    } else {
      SubseqDrop(a, x, c, b[1..]);
    }
  }

  /** A subsequence of the tail is one of the whole. */
  lemma SubseqWiden<T>(a: seq<T>, b: seq<T>)
    requires b != [] && Subseq(a, b[1..])
    ensures Subseq(a, b)
  {}

  /** Offering a tick to a shadow (the closure `f` of `onTimeUpdate`): an
      idle shadow is sent it at once and is then waiting; a waiting one gets
      it queued, after the oldest queued tick was dropped if the queue was
      full. */
  function Offer(l: Link, m: Message): (r: Link)
    ensures r.id == l.id && r.waiting
    ensures !l.waiting ==> r.posted == l.posted + [m] && r.queue == l.queue
    ensures l.waiting ==> r.posted == l.posted && r.queue != [] && r.queue[|r.queue| - 1] == m
    ensures Sane(l) ==> Sane(r)
  {
    if l.waiting then
      var q := if |l.queue| >= MaxWaitQueue then l.queue[1..] else l.queue;
      l.(queue := q + [m])
    else
      l.(waiting := true, posted := l.posted + [m])
  }

  /** The origin's handling of a `done` from a shadow: the shadow is idle
      again, unless a tick was queued, in which case the oldest one is sent
      and the shadow is waiting for it. */
  function Done(l: Link): (r: Link)
    ensures r.id == l.id
    ensures l.queue == [] ==> !r.waiting && r.posted == l.posted
    ensures l.queue != [] ==> r.waiting && r.posted == l.posted + [l.queue[0]]
    ensures r.posted + r.queue == l.posted + l.queue
    ensures Sane(l) ==> Sane(r)
  {
    if l.queue == [] then l.(waiting := false)
    else
      var r := l.(waiting := true, queue := l.queue[1..], posted := l.posted + [l.queue[0]]);
      assert l.queue == [l.queue[0]] + l.queue[1..];
      r
  }

  /** What a shadow has been sent, followed by what still waits for it, is
      what the origin offered it, in order, with some ticks dropped: ticks
      reach a shadow in the order they were issued, and none twice. */
  lemma OfferKeepsOrder(l: Link, m: Message, issued: seq<Message>)
    requires Sane(l) && Subseq(l.posted + l.queue, issued)
    ensures Subseq(Offer(l, m).posted + Offer(l, m).queue, issued + [m])
  {
    var r := Offer(l, m);
    if !l.waiting {
      assert l.posted + l.queue == l.posted && r.posted + r.queue == l.posted + [m];
      SubseqSnoc(l.posted, issued, m);
    } else {
      SubseqSnoc(l.posted + l.queue, issued, m);
      if |l.queue| >= MaxWaitQueue {
        assert l.posted + l.queue + [m] == l.posted + [l.queue[0]] + (l.queue[1..] + [m]);
        SubseqDrop(l.posted, l.queue[0], l.queue[1..] + [m], issued + [m]);
        assert r.posted + r.queue == l.posted + (l.queue[1..] + [m]);
      } else {
        assert r.posted + r.queue == l.posted + l.queue + [m];
      }
    }
  }

  /** The ticks `ms` offered one after the other. */
  function OfferEach(l: Link, ms: seq<Message>): Link
    decreases |ms|
  {
    if ms == [] then l else OfferEach(Offer(l, ms[0]), ms[1..])
  }

  /** While a shadow is busy, nothing more is sent to it, and its queue
      holds the two most recent ticks offered to it. */
  lemma {:induction false} BusyKeepsLastTwo(l: Link, ms: seq<Message>)
    requires l.waiting && Sane(l) && |ms| >= 2
    ensures OfferEach(l, ms).waiting && OfferEach(l, ms).posted == l.posted
    ensures OfferEach(l, ms).queue == ms[|ms| - 2..]
    decreases |ms|
  {
    if |ms| == 2 {
      BusyTakesTwo(l, ms);
    } else {
      BusyKeepsLastTwo(Offer(l, ms[0]), ms[1..]);
      assert ms[1..][|ms| - 3..] == ms[|ms| - 2..];
    }
  }

  /** Two ticks offered to a busy shadow make up its whole queue. */
  lemma BusyTakesTwo(l: Link, ms: seq<Message>)
    requires l.waiting && Sane(l) && |ms| == 2
    ensures OfferEach(l, ms).waiting && OfferEach(l, ms).posted == l.posted
    ensures OfferEach(l, ms).queue == ms
  {
    var next := Offer(l, ms[0]);
    var last := Offer(next, ms[1]);
    assert next.queue != [] && next.queue[|next.queue| - 1] == ms[0] && |next.queue| <= MaxWaitQueue;
    assert last.queue == [ms[0], ms[1]] == ms;
    assert ms[1..][0] == ms[1] && ms[1..][1..] == [];
    assert OfferEach(l, ms) == OfferEach(next, ms[1..]) == OfferEach(last, []) == last;
  }

  /** Three `done`s send a shadow its two queued ticks, oldest first, and
      leave it idle. */
  lemma DrainTwo(l: Link, a: Message, b: Message)
    requires l.waiting && l.queue == [a, b]
    ensures Done(Done(Done(l))).posted == l.posted + [a, b]
    ensures !Done(Done(Done(l))).waiting
  {
    var d1 := Done(l);
    assert d1.queue == [b] && d1.posted == l.posted + [a];
    var d2 := Done(d1);
    assert d2.queue == [] && d2.posted == l.posted + [a, b];
  }

  /** Five ticks offered to an idle shadow before its first `done`: the
      first is sent, the second and third are pushed out of the queue by the
      fourth and the fifth, and after three `done`s the shadow has been sent
      ticks 1, 4 and 5 and is idle. */
  lemma FiveTicksBeforeDone(l: Link, m1: Message, m2: Message, m3: Message, m4: Message, m5: Message)
    requires !l.waiting && l.queue == []
    ensures Done(Done(Done(OfferEach(l, [m1, m2, m3, m4, m5])))).posted == l.posted + [m1, m4, m5]
    ensures !Done(Done(Done(OfferEach(l, [m1, m2, m3, m4, m5])))).waiting
  {
    var ms := [m1, m2, m3, m4, m5];
    var l1 := Offer(l, m1);
    assert ms[1..] == [m2, m3, m4, m5];
    BusyKeepsLastTwo(l1, ms[1..]);
    DrainTwo(OfferEach(l, ms), m4, m5);
    assert l1.posted + [m4, m5] == l.posted + [m1, m4, m5];
  }

  /** The tick `onTimeUpdate` sends a shadow: the origin's id, the shadow's
      id and the origin's clock. */
  function TickFor(tid: Key, l: Link, clock: Payload): Message {
    Message(TickMsg, tid, Num(l.id), clock)
  }

  /** Every shadow offered the tick with clock `clock`. */
  function OfferAll(ls: seq<Link>, tid: Key, clock: Payload): (r: seq<Link>)
    ensures |r| == |ls|
  {
    seq(|ls|, j requires 0 <= j < |ls| => Offer(ls[j], TickFor(tid, ls[j], clock)))
  }

  /** Every link is sane and has been sent, and still queues, only ticks
      the origin issued to it, in issue order. */
  ghost predicate LinksOk(ls: seq<Link>, issued: seq<seq<Message>>) {
    && |issued| == |ls|
    && forall j :: 0 <= j < |ls| ==> Sane(ls[j]) && Subseq(ls[j].posted + ls[j].queue, issued[j])
  }

  /** Offering a tick to every shadow keeps every link sane and in order. */
  lemma {:induction false} OfferAllKeepsLinks(ls: seq<Link>, issued: seq<seq<Message>>, tid: Key, clock: Payload)
    requires LinksOk(ls, issued)
    ensures LinksOk(OfferAll(ls, tid, clock),
                    seq(|ls|, j requires 0 <= j < |ls| => issued[j] + [TickFor(tid, ls[j], clock)]))
  {
    forall j | 0 <= j < |ls|
      ensures Sane(OfferAll(ls, tid, clock)[j])
      ensures Subseq(OfferAll(ls, tid, clock)[j].posted + OfferAll(ls, tid, clock)[j].queue,
                     issued[j] + [TickFor(tid, ls[j], clock)])
    {
      OfferKeepsOrder(ls[j], TickFor(tid, ls[j], clock), issued[j]);
    }
  }

  /** Why an Origin or a Shadow cannot be made: `wrong params`. */
  datatype SyncError = WrongParams

  class OriginTimeline {
    const timeline: LegacyTimeline
    /** `this.id`, the id every message of this origin carries. */
    const id: Key
    /** `this.shadows`, in the order they were added. */
    var shadows: seq<Link>
    /** For each shadow, every message the origin issued to it. */
    ghost var issued: seq<seq<Message>>

    ghost predicate Valid()
      reads this, timeline, timeline.tracks
    {
      && !timeline.shadow && timeline.Valid() && id == timeline.config.id
      && LinksOk(shadows, issued)
    }

    /** The constructor past its id check: an ordinary timeline, then one
        shadow per port of `config.shadows`, with the ids `ids`. */
    constructor (config: LegacyConfig, now: real, ids: seq<real>)
      requires IdGiven(config.id) && |ids| == |config.shadows|
      ensures Valid() && fresh(timeline) && id == config.id
      ensures timeline.config == config && timeline.tracks == [] && timeline.currentTime == 0.0
      ensures shadows == seq(|ids|, j requires 0 <= j < |ids| => Link(ids[j], false, [], [InitFor(config, ids[j])]))
    {
      timeline := new LegacyTimeline(config, false, now);
      id := config.id;
      shadows := [];
      issued := [];
      new;
      var i := 0;
      while i < |ids|
        invariant 0 <= i <= |ids|
        invariant Valid() && timeline.config == config && timeline.tracks == [] && timeline.currentTime == 0.0
        invariant shadows == seq(i, j requires 0 <= j < i => Link(ids[j], false, [], [InitFor(config, ids[j])]))
      {
        AddShadow(ids[i]);
        i := i + 1;
      }
    }

    /** `addShadow(port)` for a shadow with id `sid`: the shadow's port is
        sent an `init` with the configuration (without ports), and the shadow
        is added, idle. */
    method AddShadow(sid: real)
      requires Valid()
      modifies this`shadows, this`issued
      ensures Valid()
      ensures shadows == old(shadows) + [Link(sid, false, [], [InitFor(timeline.config, sid)])]
    {
      var init := InitFor(timeline.config, sid);
      shadows := shadows + [Link(sid, false, [], [init])];
      issued := issued + [[init]];
      SubseqRefl([init]);
    }

    /** `onTimeUpdate`: every shadow is offered a tick with the current clock. */
    method OnTimeUpdate()
      requires Valid()
      modifies this`shadows, this`issued
      ensures Valid()
      ensures shadows == OfferAll(old(shadows), id, Clock(timeline))
    {
      var clock := Clock(timeline);
      ghost var before, log := shadows, issued;
      var links := shadows;
      var i := 0;
      while i < |links|
        invariant 0 <= i <= |links| == |before|
        invariant forall j :: 0 <= j < i ==> links[j] == Offer(before[j], TickFor(id, before[j], clock))
        invariant forall j :: i <= j < |links| ==> links[j] == before[j]
      {
        links := links[i := Offer(links[i], TickFor(id, links[i], clock))];
        i := i + 1;
      }
      assert links == OfferAll(before, id, clock);
      OfferAllKeepsLinks(before, log, id, clock);
      shadows := links;
      issued := seq(|before|, j requires 0 <= j < |before| => log[j] + [TickFor(id, before[j], clock)]);
    }

    /** The listener on shadow `j`'s port: a message without data, for
        another timeline or from another shadow is ignored; a `done` from
        the shadow is handled by `Done`. */
    method Receive(j: nat, data: Option<Message>)
      requires Valid() && j < |shadows|
      modifies this`shadows
      ensures Valid()
      ensures shadows == (if Answers(data, id, shadows[j].id) then old(shadows)[j := Done(old(shadows)[j])]
                          else old(shadows))
    {
      if data.None? || data.value.timelineId != id || data.value.shadowId != Num(shadows[j].id) {
        return;
      }
      if data.value.kind == DoneMsg {
        var l := Done(shadows[j]);
        assert l.posted + l.queue == shadows[j].posted + shadows[j].queue;
        shadows := shadows[j := l];
      }
    }

    /** What the hooked `onTimeUpdate` does after a tick: a tick that was
        not skipped offers each shadow the clock it ends with. */
    method Forward(r: LegacyTickResult)
      requires Valid()
      modifies this`shadows, this`issued
      ensures Valid()
      ensures shadows == if r.Ticked? then OfferAll(old(shadows), id, Clock(timeline)) else old(shadows)
    {
      if r.Ticked? {
        OnTimeUpdate();
      }
    }

    /** The inherited `tick`, with `onTimeUpdate` hooked in: every frame that
        is not skipped offers each shadow the clock the frame ends with. */
    method Tick(singleStep: bool, time: Option<real>, now: real) returns (r: LegacyTickResult)
      requires Valid()
      modifies timeline`currentTime, timeline`lastCurrentTime, timeline`referenceTime, timeline`running
      modifies timeline`frameRequested, timeline`tracks
      modifies timeline.tracks`alive, timeline.tracks`running, timeline.tracks`inited, timeline.tracks`started
      modifies timeline.tracks`loopTime, this`shadows, this`issued
      ensures Valid()
      ensures r.Skipped? <==> time.None? && Before(now - old(timeline.referenceTime) - old(timeline.currentTime), timeline.minFrame)
      ensures r.Skipped? ==> shadows == old(shadows)
      ensures r.Ticked? ==> shadows == OfferAll(old(shadows), id, Clock(timeline))
      ensures timeline.Went(old(timeline.tracks), old(Timings(timeline.tracks)), old(States(timeline.tracks)), old(timeline.running), old(timeline.frameRequested), singleStep,
                                   Target(time, now - old(timeline.referenceTime), old(timeline.currentTime), timeline.config.maxStep), r)
    {
      ghost var ts := timeline.tracks;
      r := timeline.Tick(singleStep, time, now);
      ghost var after := States(ts);
      if r.Ticked? {
        OnTimeUpdate();
      }
      assert States(ts) == after;
    }

    /** The requested frame runs the inherited `tick()` with `onTimeUpdate`
        hooked in, at the clock reading `now`. */
    method Frame(now: real) returns (r: LegacyTickResult)
      requires Valid() && timeline.frameRequested
      modifies timeline`currentTime, timeline`lastCurrentTime, timeline`referenceTime, timeline`running
      modifies timeline`frameRequested, timeline`tracks
      modifies timeline.tracks`alive, timeline.tracks`running, timeline.tracks`inited, timeline.tracks`started
      modifies timeline.tracks`loopTime, this`shadows, this`issued
      ensures Valid()
      ensures r.Skipped? <==> Before(now - old(timeline.referenceTime) - old(timeline.currentTime), timeline.minFrame)
      ensures r.Skipped? ==> shadows == old(shadows) && timeline.frameRequested
      ensures r.Ticked? ==> shadows == OfferAll(old(shadows), id, Clock(timeline))
      ensures timeline.Went(old(timeline.tracks), old(Timings(timeline.tracks)), old(States(timeline.tracks)), old(timeline.running), false, false,
                                   Target(None, now - old(timeline.referenceTime), old(timeline.currentTime), timeline.config.maxStep), r)
    {
      ghost var ts := timeline.tracks;
      r := timeline.Frame(now);
      ghost var after := States(ts);
      Forward(r);
      assert States(ts) == after;
    }

    /** The inherited `play`, whose tick runs `onTimeUpdate`: the clock is
        rebased on the reading `now` and the tick reads it at `later`. */
    method Play(now: real, later: real) returns (r: LegacyTickResult)
      requires Valid()
      modifies timeline`currentTime, timeline`lastCurrentTime, timeline`referenceTime, timeline`running
      modifies timeline`frameRequested, timeline`tracks
      modifies timeline.tracks`alive, timeline.tracks`running, timeline.tracks`inited, timeline.tracks`started
      modifies timeline.tracks`loopTime, this`shadows, this`issued
      ensures Valid()
      ensures r.Skipped? <==> Before(later - now - old(timeline.currentTime), timeline.minFrame)
      ensures r.Skipped? ==> shadows == old(shadows)
      ensures r.Ticked? ==> shadows == OfferAll(old(shadows), id, Clock(timeline))
      ensures timeline.Went(old(timeline.tracks), old(Timings(timeline.tracks)), old(States(timeline.tracks)), true, false, false,
                                   Target(None, later - now, old(timeline.currentTime), timeline.config.maxStep), r)
    {
      ghost var ts := timeline.tracks;
      r := timeline.Play(now, later);
      ghost var after := States(ts);
      Forward(r);
      assert States(ts) == after;
    }

    /** The inherited `resume`, whose tick runs `onTimeUpdate`: the seek
        reads the clock at `now` and the tick at `later`. */
    method Resume(now: real, later: real) returns (r: LegacyTickResult)
      requires Valid()
      modifies timeline`currentTime, timeline`lastCurrentTime, timeline`referenceTime, timeline`running
      modifies timeline`frameRequested, timeline`tracks, timeline`timeBeforePaused
      modifies timeline.tracks`alive, timeline.tracks`running, timeline.tracks`inited, timeline.tracks`started
      modifies timeline.tracks`loopTime, this`shadows, this`issued
      ensures Valid()
      ensures r.Skipped? <==> Before(later - now, timeline.minFrame)
      ensures r.Skipped? ==> shadows == old(shadows)
      ensures r.Ticked? ==> shadows == OfferAll(old(shadows), id, Clock(timeline))
      ensures timeline.Went(old(timeline.tracks), old(Timings(timeline.tracks)), old(States(timeline.tracks)), true, false, false,
                                   Target(None, old(timeline.currentTime) + (later - now), old(timeline.currentTime), timeline.config.maxStep), r)
    {
      ghost var ts := timeline.tracks;
      r := timeline.Resume(now, later);
      ghost var after := States(ts);
      Forward(r);
      assert States(ts) == after;
    }
  }

  /** The `init` an origin posts to a new shadow's port. */
  function InitFor(config: LegacyConfig, sid: real): (m: Message)
    ensures m.kind == InitMsg && m.timelineId == config.id && m.shadowId == Num(sid)
    ensures m.payload.ConfigPayload? && m.payload.config.shadows == [] && m.payload.config.duration == config.duration
  {
    Message(InitMsg, config.id, Num(sid), ConfigPayload(config.(shadows := [])))
  }

  /** The clock part of a tick: `currentTime`, `duration`, `referenceTime`. */
  function Clock(t: LegacyTimeline): Payload
    reads t`currentTime, t`duration, t`referenceTime
  {
    TimePayload(t.currentTime, t.duration, t.referenceTime)
  }

  /** `data` is a `done` the listener of shadow `sid` acts on. */
  predicate Answers(data: Option<Message>, tid: Key, sid: real) {
    data.Some? && data.value.timelineId == tid && data.value.shadowId == Num(sid) && data.value.kind == DoneMsg
  }

  /** `new OriginTimeline(props)`: refused unless an id is given (0 counts). */
  method NewOrigin(config: LegacyConfig, now: real, ids: seq<real>) returns (r: Result<OriginTimeline, SyncError>)
    requires |ids| == |config.shadows|
    ensures r.Ok? <==> IdGiven(config.id)
    ensures r.Ok? ==> fresh(r.value) && r.value.Valid() && r.value.id == config.id && |r.value.shadows| == |ids|
  {
    if !IdGiven(config.id) {
      return Err(WrongParams);
    }
    var o := new OriginTimeline(config, now, ids);
    r := Ok(o);
  }

  class ShadowTimeline {
    /** The inherited timeline, with the shadow's `seek`. */
    const timeline: LegacyTimeline
    const id: Key
    /** `this.shadow_id`: unset until an `init` is adopted. */
    var shadowId: Key
    /** What this shadow posted to its port. */
    var outbox: seq<Message>

    /** A shadow never runs: its `play` and `resume` do nothing, and its
        own ticks are single steps. */
    predicate Valid()
      reads this, timeline, timeline.tracks
    {
      timeline.shadow && timeline.Valid() && !timeline.running
    }

    constructor (config: LegacyConfig, now: real)
      requires IdGiven(config.id)
      ensures Valid() && fresh(timeline) && id == config.id && shadowId == Undefined && outbox == []
      ensures timeline.config == config && timeline.tracks == []
    {
      timeline := new LegacyTimeline(config, true, now);
      id := config.id;
      shadowId := Undefined;
      outbox := [];
    }

    /** The listener on the shadow's port. Nothing happens to a message
        without data or for another timeline. Before pairing, an `init`
        pairs the shadow and installs the configuration, duration and loop
        it carries. Once paired, only messages for its own shadow id count:
        a `tick` sets the clock, the duration and the reference it carries,
        takes a single step at that time, and is answered with `done`. */
    method HandleMessage(data: Option<Message>) returns (r: Option<LegacyTickResult>)
      requires Valid()
      modifies this`shadowId, this`outbox, timeline`config, timeline`duration, timeline`loop
      modifies timeline`currentTime, timeline`lastCurrentTime, timeline`referenceTime, timeline`running
      modifies timeline`frameRequested, timeline`tracks
      modifies timeline.tracks`alive, timeline.tracks`running, timeline.tracks`inited, timeline.tracks`started
      modifies timeline.tracks`loopTime
      ensures Valid()
      ensures r.Some? <==> Truthy(old(shadowId)) && Stepped(data, id, old(shadowId))
      ensures r.None? ==> outbox == old(outbox) && timeline.currentTime == old(timeline.currentTime)
      ensures !Truthy(old(shadowId)) && Pairs(data, id) ==>
                && shadowId == data.value.shadowId && timeline.config == data.value.payload.config
                && timeline.duration == timeline.config.duration && timeline.loop == timeline.config.loop
      ensures !(!Truthy(old(shadowId)) && Pairs(data, id)) ==>
                && shadowId == old(shadowId)
                && timeline.config == old(timeline.config) && timeline.loop == old(timeline.loop)
      ensures r.None? ==>
                && timeline.referenceTime == old(timeline.referenceTime)
                && timeline.lastCurrentTime == old(timeline.lastCurrentTime)
                && timeline.frameRequested == old(timeline.frameRequested) && timeline.running == old(timeline.running)
      ensures r.None? && !(!Truthy(old(shadowId)) && Pairs(data, id)) ==> timeline.duration == old(timeline.duration)
      ensures r.Some? ==>
                var clock := data.value.payload;
                && r.value.Ticked? && r.value.endFired == []
                && outbox == old(outbox) + [Message(DoneMsg, id, shadowId, NoPayload)]
                && timeline.duration == clock.duration && timeline.referenceTime == clock.referenceTime
                && timeline.currentTime
                   == (if timeline.loop && !LessEq(Fin(clock.currentTime), clock.duration) then 0.0 else clock.currentTime)
                && timeline.frameRequested == old(timeline.frameRequested)
      ensures r.Some? ==>
                && timeline.Processed(old(timeline.tracks), false, old(timeline.frameRequested), true, data.value.payload.currentTime, r.value)
                && Swept(old(timeline.tracks), old(Timings(timeline.tracks)), old(States(timeline.tracks)),
                         States(old(timeline.tracks)), timeline.currentTime, r.value.events)
      ensures r.None? ==>
                && timeline.tracks == old(timeline.tracks)
                && Timings(timeline.tracks) == old(Timings(timeline.tracks))
                && States(timeline.tracks) == old(States(timeline.tracks))
    {
      r := None;
      if data.None? || data.value.timelineId != id {
        return;
      }
      var msg := data.value;
      if Truthy(shadowId) {
        if msg.shadowId != shadowId {
          return;
        }
        if msg.kind == TickMsg && msg.payload.TimePayload? {
          var t := Step(msg.payload.currentTime, msg.payload.duration, msg.payload.referenceTime);
          r := Some(t);
        }
      } else if msg.kind == InitMsg && msg.payload.ConfigPayload? {
        shadowId := msg.shadowId;
        timeline.config := msg.payload.config;
        timeline.duration := timeline.config.duration;
        timeline.loop := timeline.config.loop;
      }
    }

    /** A `tick` accepted: the clock, duration and reference it carries are
        installed, the timeline takes a single step at that time, and `done`
        is posted. */
    method Step(currentTime: real, duration: Ext, referenceTime: real) returns (r: LegacyTickResult)
      requires Valid()
      modifies this`outbox, timeline`duration
      modifies timeline`currentTime, timeline`lastCurrentTime, timeline`referenceTime, timeline`running
      modifies timeline`frameRequested, timeline`tracks
      modifies timeline.tracks`alive, timeline.tracks`running, timeline.tracks`inited, timeline.tracks`started
      modifies timeline.tracks`loopTime
      ensures Valid() && r.Ticked? && r.endFired == []
      ensures outbox == old(outbox) + [Message(DoneMsg, id, shadowId, NoPayload)]
      ensures timeline.duration == duration && timeline.referenceTime == referenceTime
      ensures timeline.currentTime == (if timeline.loop && !LessEq(Fin(currentTime), duration) then 0.0 else currentTime)
      ensures timeline.frameRequested == old(timeline.frameRequested)
      ensures timeline.Processed(old(timeline.tracks), false, old(timeline.frameRequested), true, currentTime, r)
      ensures Swept(old(timeline.tracks), old(Timings(timeline.tracks)), old(States(timeline.tracks)),
                    States(old(timeline.tracks)), timeline.currentTime, r.events)
    {
      ghost var ts, times, states := timeline.tracks, Timings(timeline.tracks), States(timeline.tracks);
      timeline.currentTime, timeline.duration, timeline.referenceTime := currentTime, duration, referenceTime;
      assert timeline.tracks == ts && Timings(ts) == times && States(ts) == states;
      r := Answer();
    }

    /** The single step at the installed clock, and the `done` answer. */
    method Answer() returns (r: LegacyTickResult)
      requires Valid()
      modifies this`outbox
      modifies timeline`currentTime, timeline`lastCurrentTime, timeline`referenceTime, timeline`running
      modifies timeline`frameRequested, timeline`tracks
      modifies timeline.tracks`alive, timeline.tracks`running, timeline.tracks`inited, timeline.tracks`started
      modifies timeline.tracks`loopTime
      ensures Valid() && r.Ticked? && r.endFired == []
      ensures outbox == old(outbox) + [Message(DoneMsg, id, shadowId, NoPayload)]
      ensures timeline.referenceTime == old(timeline.referenceTime)
      ensures timeline.Processed(old(timeline.tracks), false, old(timeline.frameRequested), true, old(timeline.currentTime), r)
      ensures Swept(old(timeline.tracks), old(Timings(timeline.tracks)), old(States(timeline.tracks)),
                    States(old(timeline.tracks)), timeline.currentTime, r.events)
    {
      // A shadow's tick with an explicit time never reads the clock.
      ghost var ts := timeline.tracks;
      r := timeline.Tick(true, Some(timeline.currentTime), 0.0);
      ghost var after := States(ts);
      outbox := outbox + [Message(DoneMsg, id, shadowId, NoPayload)];
      assert States(ts) == after;
    }
  }

  /** A paired shadow acts on `data`: a `tick` with a clock, for its timeline
      and shadow id. */
  predicate Stepped(data: Option<Message>, tid: Key, sid: Key) {
    && data.Some? && data.value.timelineId == tid && data.value.shadowId == sid
    && data.value.kind == TickMsg && data.value.payload.TimePayload?
  }

  /** An unpaired shadow acts on `data`: an `init` with a configuration, for
      its timeline. */
  predicate Pairs(data: Option<Message>, tid: Key) {
    && data.Some? && data.value.timelineId == tid
    && data.value.kind == InitMsg && data.value.payload.ConfigPayload?
  }

  /** `new ShadowTimeline(props)`: refused without a port or an id (0 counts). */
  method NewShadow(config: LegacyConfig, hasPort: bool, now: real) returns (r: Result<ShadowTimeline, SyncError>)
    ensures r.Ok? <==> hasPort && IdGiven(config.id)
    ensures r.Ok? ==> fresh(r.value) && r.value.Valid() && r.value.id == config.id && r.value.shadowId == Undefined
  {
    if !hasPort || !IdGiven(config.id) {
      return Err(WrongParams);
    }
    var s := new ShadowTimeline(config, now);
    r := Ok(s);
  }
}
