/** What survives: over every run of a manager, and over every sequence of runs. */
module Persistence {
  import opened Fields
  import opened Bank
  import opened Storage
  import opened Database
  import Ledgers

  function After(m: State, events: seq<Event>): State {
    if events == [] then m else Next(After(m, events[..|events| - 1]), events[|events| - 1])
  }

  /** The items put into the queue by an event. */
  function Brought(m: State, e: Event): seq<WorkItem> {
    match e
    case Enqueue(item) => [item]
    case Timer(failed) => if failed || !m.armed then [] else [WorkItem(Save, 0)]
    case _ => []
  }

  function Enqueued(m: State, events: seq<Event>): seq<WorkItem> {
    if events == [] then []
    else
      var before, last := events[..|events| - 1], events[|events| - 1];
      Enqueued(m, before) + Brought(After(m, before), last)
  }

  /** The items taken out by the worker, in order, and what it read of clock and salt each time. */
  function Done(m: State, events: seq<Event>): seq<(WorkItem, Env)> {
    if events == [] then []
    else
      var last := |events| - 1;
      var before := After(m, events[..last]);
      Done(m, events[..last])
      + (if events[last].Work? && before.queue != [] then [(before.queue[0], events[last].env)] else [])
  }

  function Items(done: seq<(WorkItem, Env)>): (items: seq<WorkItem>)
    ensures |items| == |done| && forall i :: 0 <= i < |done| ==> items[i] == done[i].0
  {
    if done == [] then [] else Items(done[..|done| - 1]) + [done[|done| - 1].0]
  }

  function Jobs(done: seq<(WorkItem, Env)>): (jobs: seq<Job>)
    ensures |jobs| == |done| && forall i :: 0 <= i < |done| ==> jobs[i] == Job(done[i].0.op, done[i].1)
  {
    if done == [] then []
    else Jobs(done[..|done| - 1]) + [Job(done[|done| - 1].0.op, done[|done| - 1].1)]
  }

  /** The replies to a run's items: every one but a save gets its answer, in order. */
  function Replies(d: Data, done: seq<(WorkItem, Env)>): seq<Reply> {
    if done == [] then []
    else
      var last := |done| - 1;
      var item := done[last].0;
      Replies(d, done[..last])
      + (if item.op.Save? then []
         else [Reply(item.callback, Step(Run(d, Jobs(done[..last])), item.op, done[last].1).answer)])
  }

  // ----- one run -----

  lemma CleanStep(d: Data, op: Op, env: Env)
    ensures !Step(d, op, env).dirty ==> Step(d, op, env).data == d
  {
    hide Hashed, Wrap, NameOf, Sorted, Printed, Listed;
  }

  lemma {:induction false} QueueIsFifo(m: State, events: seq<Event>)
    ensures Items(Done(m, events)) + After(m, events).queue == m.queue + Enqueued(m, events)
  {
    hide Next, Items;
    if events == [] {
      assert Items([]) == [];
    } else {
      var last := |events| - 1;
      var before, e := After(m, events[..last]), events[last];
      QueueIsFifo(m, events[..last]);
      NextQueue(before, e);
      var done := Done(m, events[..last]);
      if e.Work? && before.queue != [] {
        ItemsSnoc(done, (before.queue[0], e.env));
        Taken(Items(done), before.queue, m.queue, Enqueued(m, events[..last]));
      } else {
        assert done + [] == done;
        Put(Items(done), before.queue, m.queue, Enqueued(m, events[..last]), Brought(before, e));
      }
    }
  }

  lemma Taken<T>(done: seq<T>, queue: seq<T>, start: seq<T>, put: seq<T>)
    requires done + queue == start + put && queue != []
    ensures done + [queue[0]] + queue[1..] == start + (put + [])
  {
    assert queue == [queue[0]] + queue[1..];
    assert put + [] == put;
  }

  lemma Put<T>(done: seq<T>, queue: seq<T>, start: seq<T>, put: seq<T>, more: seq<T>)
    requires done + queue == start + put
    ensures done + (queue + more) == start + (put + more)
  {
    assert done + (queue + more) == done + queue + more;
    assert start + (put + more) == start + put + more;
  }

  lemma ItemsSnoc(done: seq<(WorkItem, Env)>, next: (WorkItem, Env))
    ensures Items(done + [next]) == Items(done) + [next.0]
  {
  }

  /** An event puts its items at the end of the queue; a turn takes one from the front. */
  lemma NextQueue(m: State, e: Event)
    ensures Next(m, e).queue == if e.Work? && m.queue != [] then m.queue[1..] else m.queue + Brought(m, e)
  {
    assert m.queue + [] == m.queue;
    hide Step, Saved;
  }

  lemma JobsSnoc(done: seq<(WorkItem, Env)>, next: (WorkItem, Env))
    ensures Jobs(done + [next]) == Jobs(done) + [Job(next.0.op, next.1)]
    ensures (done + [next])[..|done|] == done
  {
  }

  lemma RunSnoc(d: Data, jobs: seq<Job>, job: Job)
    ensures Run(d, jobs + [job]) == Step(Run(d, jobs), job.op, job.env).data
  {
    assert (jobs + [job])[..|jobs|] == jobs;
  }

  /** The data are what the items taken out make of the data at the start, and the callbacks are posted with the
      answers of that run, in order. */
  lemma {:induction false} RunsTheQueue(m: State, events: seq<Event>)
    ensures After(m, events).data == Run(m.data, Jobs(Done(m, events)))
    ensures After(m, events).posted == m.posted + Replies(m.data, Done(m, events))
  {
    hide Run, Next, Jobs, Replies;
    if events == [] {
      StartOfRun(m.data);
    } else {
      var last := |events| - 1;
      var before, e := After(m, events[..last]), events[last];
      RunsTheQueue(m, events[..last]);
      NextRuns(m, before, Done(m, events[..last]), e);
    }
  }

  lemma NextRuns(m: State, before: State, done: seq<(WorkItem, Env)>, e: Event)
    requires before.data == Run(m.data, Jobs(done)) && before.posted == m.posted + Replies(m.data, done)
    ensures var more := done + (if e.Work? && before.queue != [] then [(before.queue[0], e.env)] else []);
            && Next(before, e).data == Run(m.data, Jobs(more))
            && Next(before, e).posted == m.posted + Replies(m.data, more)
  {
    hide Run, Step, Saved, Jobs, Replies;
    if e.Work? && before.queue != [] {
      OneMore(m.data, done, (before.queue[0], e.env));
    } else {
      assert done + [] == done;
    }
  }

  lemma StartOfRun(d: Data)
    ensures Run(d, Jobs([])) == d && Replies(d, []) == []
  {
  }

  lemma OneMore(d: Data, done: seq<(WorkItem, Env)>, next: (WorkItem, Env))
    ensures var before := Run(d, Jobs(done));
            var o := Step(before, next.0.op, next.1);
            && Run(d, Jobs(done + [next])) == o.data
            && (next.0.op.Save? ==> o.data == before && Replies(d, done + [next]) == Replies(d, done))
            && (!next.0.op.Save? ==> Replies(d, done + [next]) == Replies(d, done) + [Reply(next.0.callback, o.answer)])
  {
    hide Run, Step;
    JobsSnoc(done, next);
    RunSnoc(d, Jobs(done), Job(next.0.op, next.1));
    if next.0.op.Save? { SaveKeeps(Run(d, Jobs(done)), next.1); }
  }

  lemma SaveKeeps(d: Data, env: Env)
    ensures Step(d, Save, env).data == d
  {
  }

  /** A clean manager has everything on disk. */
  lemma {:induction false} CleanIsSaved(m: State, events: seq<Event>)
    requires Ledgers.Good(m.data) && (!m.dirty ==> Loaded(m.disk) == m.data)
    ensures Ledgers.Good(After(m, events).data)
    ensures !After(m, events).dirty ==> Loaded(After(m, events).disk) == After(m, events).data
  {
    hide Run, Step, Saved, Loaded, Ledgers.Good;
    if events != [] {
      var last := |events| - 1;
      var before, e := After(m, events[..last]), events[last];
      CleanIsSaved(m, events[..last]);
      if e.Work? && before.queue != [] {
        var op := before.queue[0].op;
        CleanStep(before.data, op, e.env);
        Ledgers.StepGood(before.data, op, e.env);
        Ledgers.StepGood(before.data, Save, e.env);
        SavedLoads(before.disk, before.data);
      }
    }
  }

  lemma SavedLoads(disk: Disk, d: Data)
    requires Ledgers.Good(d)
    ensures Loaded(Saved(disk, d)) == d
  {
    hide Loaded, Saved, Ledgers.Good, Storable;
    GoodIsStorable(d);
    SaveLoad(disk, d);
  }

  /** From any disk that loads well, a manager that is not dirty can be killed without loss. */
  lemma Durable(disk: Disk, events: seq<Event>)
    requires Ledgers.Good(Loaded(disk))
    ensures var m := After(Start(disk), events);
            !m.dirty ==> Loaded(m.disk) == m.data == Run(Loaded(disk), Jobs(Done(Start(disk), events)))
  {
    hide After, Loaded, Ledgers.Good, Run;
    CleanIsSaved(Start(disk), events);
    RunsTheQueue(Start(disk), events);
  }

  /** A save leaves nothing to be saved, and posts nothing. */
  lemma SaveCleans(m: State, callback: nat, env: Env)
    requires Ledgers.Good(m.data) && (!m.dirty ==> Loaded(m.disk) == m.data)
    ensures var after := Processed(m, WorkItem(Save, callback), env);
            !after.dirty && Loaded(after.disk) == after.data == m.data && after.posted == m.posted
  {
    hide Saved, Loaded, Ledgers.Good;
    SavedLoads(m.disk, m.data);
  }

  // ----- shutting down -----

  /** The worker's last turns, as events. */
  function Turns(clock: nat -> Env, n: nat): (turns: seq<Event>) {
    seq(n, (i: nat) => Event.Work(clock(i)))
  }

  lemma {:induction false} DrainedIsRun(m: State, events: seq<Event>, clock: nat -> Env, n: nat)
    ensures Drained(After(m, events), clock, n) == After(m, events + Turns(clock, n))
  {
    hide Next;
    var more := events + Turns(clock, n);
    if n == 0 {
      assert more == events;
    } else {
      DrainedIsRun(m, events, clock, n - 1);
      assert more[..|more| - 1] == events + Turns(clock, n - 1);
    }
  }

  /** A server process: what happens before it is told to stop, and the clock the worker reads after that. */
  datatype Session = Session(events: seq<Event>, clock: nat -> Env)

  /** Everything that happens, with the last turns of the worker. */
  function Whole(disk: Disk, s: Session): seq<Event> {
    s.events + [Stop] + Turns(s.clock, |After(Start(disk), s.events).queue|)
  }

  function Finished(disk: Disk, s: Session): State {
    Shutdown(After(Start(disk), s.events), s.clock)
  }

  lemma {:induction false} TurnsBringNothing(m: State, events: seq<Event>, clock: nat -> Env, n: nat)
    ensures Enqueued(m, events + [Stop] + Turns(clock, n)) == Enqueued(m, events)
    decreases n
  {
    hide After;
    var all := events + [Stop] + Turns(clock, n);
    if n == 0 {
      assert all[..|all| - 1] == events;
    } else {
      TurnsBringNothing(m, events, clock, n - 1);
      assert all[..|all| - 1] == events + [Stop] + Turns(clock, n - 1);
    }
  }

  lemma Drains(disk: Disk, s: Session)
    ensures var m := After(Start(disk), Whole(disk, s));
            m.queue == [] && !m.running && !m.armed && Finished(disk, s) == Ended(m)
  {
    hide Loaded, Saved, Processed;
    var m, stopped := After(Start(disk), s.events), s.events + [Stop];
    assert stopped[..|s.events|] == s.events;
    assert After(Start(disk), stopped) == Database.Next(m, Stop);
    DrainedIsRun(Start(disk), stopped, s.clock, |m.queue|);
    DrainedQueue(Database.Next(m, Stop), s.clock, |m.queue|);
  }

  /** Whatever has happened, once the destructor is through the queue is empty, every item ever put into it has been
      worked off in order, the disk holds what they give, and all replies have been posted. */
  lemma ShutdownKeepsAll(disk: Disk, s: Session)
    requires Ledgers.Good(Loaded(disk))
    ensures var m, done := Finished(disk, s), Done(Start(disk), Whole(disk, s));
            && m.queue == [] && !m.running
            && Items(done) == Enqueued(Start(disk), s.events)
            && Loaded(m.disk) == Run(Loaded(disk), Jobs(done))
            && m.posted == Replies(Loaded(disk), done)
  {
    hide After, Loaded, Saved, Ledgers.Good, Run, Done, Enqueued, Replies, Jobs, Whole, Finished;
    var all := Whole(disk, s);
    var m := After(Start(disk), all);
    Drains(disk, s);
    QueueIsFifo(Start(disk), all);
    WholeBrings(disk, s);
    assert Items(Done(Start(disk), all)) == Items(Done(Start(disk), all)) + m.queue == [] + Enqueued(Start(disk), all);
    RunsTheQueue(Start(disk), all);
    CleanIsSaved(Start(disk), all);
    SavedLoads(m.disk, m.data);
  }

  lemma WholeBrings(disk: Disk, s: Session)
    ensures Enqueued(Start(disk), Whole(disk, s)) == Enqueued(Start(disk), s.events)
  {
    hide Loaded, Enqueued;
    TurnsBringNothing(Start(disk), s.events, s.clock, |After(Start(disk), s.events).queue|);
  }

  /** The timer is set until it fails or the manager stops, and up to then every tick puts a save into the queue;
      after that none does. */
  lemma {:induction false} TimerTicks(m: State, events: seq<Event>)
    ensures After(m, events).armed <==> m.armed && Stop !in events && Timer(true) !in events
    ensures After(m, events).armed ==> Enqueued(m, events) == Puts(events, true)
    ensures !m.armed ==> Enqueued(m, events) == Puts(events, false)
  {
    if events != [] {
      var last := |events| - 1;
      TimerTicks(m, events[..last]);
      assert events == events[..last] + [events[last]];
      ArmedNext(After(m, events[..last]), events[last]);
    }
  }

  lemma ArmedNext(m: State, e: Event)
    ensures Next(m, e).armed <==> m.armed && e != Stop && e != Timer(true)
  {
    hide Step, Saved;
  }

  /** What clients and a timer that ticks, or does not, put into a queue. */
  function Puts(events: seq<Event>, ticking: bool): seq<WorkItem> {
    if events == [] then []
    else
      var last := events[|events| - 1];
      Puts(events[..|events| - 1], ticking)
      + (if last.Enqueue? then [last.item] else if last == Timer(false) && ticking then [WorkItem(Save, 0)] else [])
  }

  // ----- many runs -----

  /** One server process after another on the same disk. */
  function Sessions(disk: Disk, runs: seq<Session>): Disk {
    if |runs| == 0 then disk else Finished(Sessions(disk, runs[..|runs| - 1]), runs[|runs| - 1]).disk
  }

  function AllJobs(disk: Disk, runs: seq<Session>): seq<Job> {
    if |runs| == 0 then []
    else
      var before, last := runs[..|runs| - 1], runs[|runs| - 1];
      var start := Sessions(disk, before);
      AllJobs(disk, before) + Jobs(Done(Start(start), Whole(start, last)))
  }

  /** All items ever put into a queue, one process after another. */
  function AllEnqueued(disk: Disk, runs: seq<Session>): seq<WorkItem> {
    if |runs| == 0 then []
    else
      var before, last := runs[..|runs| - 1], runs[|runs| - 1];
      AllEnqueued(disk, before) + Enqueued(Start(Sessions(disk, before)), last.events)
  }

  lemma {:induction false} RunConcat(d: Data, a: seq<Job>, b: seq<Job>)
    ensures Run(d, a + b) == Run(Run(d, a), b)
  {
    hide Step;
    if b == [] {
      assert a + b == a;
    } else {
      var last := |b| - 1;
      RunConcat(d, a, b[..last]);
      assert (a + b)[..|a| + last] == a + b[..last];
    }
  }

  /** Any number of restarts is as one run that was never interrupted, over everything that was ever asked for. */
  lemma {:induction false} RestartsAreInvisible(disk: Disk, runs: seq<Session>)
    requires Ledgers.Good(Loaded(disk))
    ensures Ledgers.Good(Loaded(Sessions(disk, runs)))
    ensures Loaded(Sessions(disk, runs)) == Run(Loaded(disk), AllJobs(disk, runs))
    ensures |AllJobs(disk, runs)| == |AllEnqueued(disk, runs)|
    ensures forall i :: 0 <= i < |AllJobs(disk, runs)| ==> AllJobs(disk, runs)[i].op == AllEnqueued(disk, runs)[i].op
  {
    hide After, Loaded, Saved, Ledgers.Good, Run, Done, Jobs, Enqueued, Whole, Finished;
    if |runs| == 0 {
      StartOfRun(Loaded(disk));
      NoJobs();
    } else {
      var before, last := runs[..|runs| - 1], runs[|runs| - 1];
      RestartsAreInvisible(disk, before);
      var d := Sessions(disk, before);
      var done := Done(Start(d), Whole(d, last));
      ShutdownKeepsAll(d, last);
      SameOps(done);
      RunConcat(Loaded(disk), AllJobs(disk, before), Jobs(done));
      Ledgers.RunGood(Loaded(disk), AllJobs(disk, runs));
    }
  }

  lemma SameOps(done: seq<(WorkItem, Env)>)
    ensures |Jobs(done)| == |Items(done)| && forall i :: 0 <= i < |done| ==> Jobs(done)[i].op == Items(done)[i].op
  {
  }

  lemma NoJobs()
    ensures Jobs([]) == []
  {
  }

  /** An empty disk loads well. */
  lemma EmptyDisk()
    ensures Loaded(map[]) == map[] && Ledgers.Good(Loaded(map[]))
  {
  }

  /** From an empty disk, over any number of restarts, the books of all accounts agree. */
  lemma BooksSurvive(runs: seq<Session>)
    ensures Ledgers.DoubleEntry(Loaded(Sessions(map[], runs)))
  {
    hide Sessions, AllJobs, AllEnqueued, Loaded, Ledgers.Good, Ledgers.DoubleEntry, Run;
    EmptyDisk();
    Ledgers.EmptyIsGood();
    RestartsAreInvisible(map[], runs);
    Ledgers.BooksAgree(map[], AllJobs(map[], runs));
  }
}
