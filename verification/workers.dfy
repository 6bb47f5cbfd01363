/** The worker threads of `crawler.py`, modelled as an interleaving of atomic
    steps. Each worker is a program counter over the body of the `worker`
    loop (with `scrape` inlined); a step of one worker is one block of that
    body that touches shared state (the queue pop, or one `with lock:`
    block) together with the thread-local work up to the next such block.
    A run is an arbitrary sequence of steps of arbitrary workers, so every
    thread schedule the lock allows is a run. */
module Workers {
  import opened Wrappers
  import opened Links
  import opened Frontier

  /** Where a worker is in its loop body, with its local variables. */
  datatype Phase =
      /** at the top of the loop, about to pop the queue */
    | Idle
      /** holds a popped URL, about to take the lock for the claim gate */
    | Dequeued(current: Url)
      /** won the claim; its fetch is in flight */
    | Fetching(current: Url)
      /** in the link-extraction loop; `outcomes` are what the loop makes of
          the references still to go (`Outcomes`), which depend only on each
          reference and the page URL and so are known once the page is in */
    | Extracting(current: Url, outcomes: seq<Outcome>, kept: seq<Url>)
      /** left the `try` block, about to write the crawl log */
    | Logging(current: Url, kept: seq<Url>)
      /** in the offer loop with links still to go */
    | Offering(current: Url, links: seq<Url>, countNew: nat)

  /** The worker is inside `scrape`: it has won the claim and not yet
      written the crawl log. */
  predicate Scraping(p: Phase) {
    p.Fetching? || p.Extracting? || p.Logging?
  }

  /** The URL a worker is scraping, if any. */
  function Held(p: Phase): set<Url> {
    if Scraping(p) then {p.current} else {}
  }

  /** What makes a worker move: its next block runs, its fetch completes
      with a result, or an exception escapes the `try` block of `scrape`
      (the image loop, which is not modelled, can raise one). */
  datatype Input = Next | Arrive(result: FetchResult) | Throw

  datatype Move = Move(frontier: State, phase: Phase, claimed: Option<Url>)

  /** The URL queue changed in one of the three ways a step allows:
      unchanged, its head popped, or one link appended that passes the URL
      filter and was not visited. */
  predicate QueueStep(cfg: Config, f: State, q: seq<Url>) {
    || q == f.queue
    || (f.queue != [] && q == f.queue[1..])
    || (&& |q| == |f.queue| + 1 && q[..|f.queue|] == f.queue
        && q[|f.queue|] !in f.visited && PassesUrlFilter(cfg.urlFilter, q[|f.queue|]))
  }

  /** One atomic step of a worker in phase `p`. `claimed` names the URL
      when this step won the claim gate. Inputs that do not fit the phase
      leave everything unchanged. */
  function Act(cfg: Config, join: Resolver, f: State, p: Phase, i: Input): (m: Move)
    // the visited set grows only at a won claim, by exactly the claimed URL, and the winner starts fetching it
    ensures m.claimed.Some? ==>
      && p == Dequeued(m.claimed.value) && m.claimed.value !in f.visited
      && m.frontier.visited == f.visited + {m.claimed.value}
      && m.frontier.crawled == f.crawled && m.frontier.matches == f.matches
      && m.phase == Fetching(m.claimed.value)
    ensures m.claimed.None? ==> m.frontier.visited == f.visited
    ensures p.Dequeued? && i.Next? ==> (m.claimed.Some? <==> p.current !in f.visited)
    // the crawl log grows only when a worker leaves `scrape`, by its own URL
    ensures m.frontier.crawled == f.crawled || (
      && p.Logging? && m.frontier.crawled == f.crawled + [p.current]
      && m.frontier.matches == f.matches && m.phase.Offering?)
    // the match log grows only when a fetch arrives, by the fetched URL
    ensures m.frontier.matches == f.matches || (
      && p.Fetching? && i.Arrive? && i.result.Fetched? && SearchHit(cfg, i.result.text)
      && m.frontier.matches == f.matches + [p.current]
      && m.frontier.crawled == f.crawled
      && m.phase.Extracting? && m.phase.current == p.current)
    // otherwise the URL being scraped does not change
    ensures m.claimed.None? && m.frontier.crawled == f.crawled ==> Held(m.phase) == Held(p)
    ensures m.phase.Fetching? ==> m.phase == p || m.claimed.Some?
    ensures QueueStep(cfg, f, m.frontier.queue)
    // `count_new` counts exactly the links this worker appended
    ensures p.Offering? && m.phase.Offering? ==>
      m.phase.countNew == p.countNew + |m.frontier.queue| - |f.queue|
  {
    match p
    case Idle =>
      if i.Next? then
        match Dequeue(f)
        case None => Move(f, Idle, None)
        case Some(d) => Move(d.frontier, Dequeued(d.url), None)
      else Move(f, p, None)
    case Dequeued(u) =>
      if i.Next? then
        var g := Gate(f, u);
        if g.won then Move(g.frontier, Fetching(u), Some(u)) else Move(g.frontier, Idle, None)
      else Move(f, p, None)
    case Fetching(u) =>
      if i.Arrive? then
        match i.result
        case FetchFailed => Move(f, Logging(u, []), None)
        case Fetched(text, hrefs) => Move(NoteMatch(cfg, f, u, text), Extracting(u, Outcomes(join, u, hrefs), []), None)
      else Move(f, p, None)
    case Extracting(u, os, kept) =>
      if i.Throw? || (i.Next? && (os == [] || os[0] == Stop)) then Move(f, Logging(u, kept), None)
      else if i.Next? then
        Move(f, Extracting(u, os[1..], ExtractOne(f.visited, os[0], kept)), None)
      else Move(f, p, None)
    case Logging(u, kept) =>
      if i.Next? then Move(LogCrawled(f, u), Offering(u, kept, 0), None) else Move(f, p, None)
    case Offering(u, links, n) =>
      if i.Next? then
        if links == [] then Move(f, Idle, None)
        else
          var o := Offer(cfg, f, links[0]);
          Move(o.frontier, Offering(u, links[1..], if o.appended then n + 1 else n), None)
      else Move(f, p, None)
  }

  /** The shared state together with every worker's phase. */
  datatype World = World(frontier: State, workers: seq<Phase>)

  /** The world when `main` has seeded the queue and started `threads` workers. */
  function Start(start: Url, threads: nat): (w: World)
    ensures w.frontier == Seed(start) && |w.workers| == threads
    ensures forall k | 0 <= k < threads :: w.workers[k] == Idle
  {
    World(Seed(start), seq(threads, _ => Idle))
  }

  /** Worker `worker` receives `input`; an event for a worker that does not
      exist changes nothing. */
  datatype Event = Event(worker: nat, input: Input)

  datatype Stepped = Stepped(world: World, claimed: Option<Url>)

  function Step(cfg: Config, join: Resolver, w: World, e: Event): (s: Stepped)
    ensures |s.world.workers| == |w.workers|
    ensures s.claimed.Some? ==>
      s.claimed.value !in w.frontier.visited && s.world.frontier.visited == w.frontier.visited + {s.claimed.value}
    ensures s.claimed.None? ==> s.world.frontier.visited == w.frontier.visited
  {
    if e.worker < |w.workers| then
      var m := Act(cfg, join, w.frontier, w.workers[e.worker], e.input);
      Stepped(World(m.frontier, w.workers[e.worker := m.phase]), m.claimed)
    else Stepped(w, None)
  }

  /** The result of a run: the final world, and the URLs that won the claim
      gate, in the order they won it. */
  datatype Trace = Trace(final: World, claims: seq<Url>)

  function Execute(cfg: Config, join: Resolver, w: World, events: seq<Event>): (t: Trace)
    ensures |t.final.workers| == |w.workers|
    decreases |events|
  {
    if events == [] then Trace(w, [])
    else
      var s := Step(cfg, join, w, events[0]);
      var t := Execute(cfg, join, s.world, events[1..]);
      Trace(t.final, ToSeq(s.claimed) + t.claims)
  }

  /** Across any run, no URL wins the claim gate twice, and none that was
      already visited wins it; the visited set grows by exactly the claimed
      URLs. Since `scrape` is called only right after a won claim, it runs
      at most once per URL. */
  lemma {:induction false} ClaimsAtMostOnce(cfg: Config, join: Resolver, w: World, events: seq<Event>)
    ensures NoDup(Execute(cfg, join, w, events).claims)
    ensures forall u | u in Execute(cfg, join, w, events).claims :: u !in w.frontier.visited
    ensures Execute(cfg, join, w, events).final.frontier.visited
         == w.frontier.visited + Elems(Execute(cfg, join, w, events).claims)
    decreases |events|
  {
    if events != [] {
      var s := Step(cfg, join, w, events[0]);
      var t := Execute(cfg, join, s.world, events[1..]);
      ClaimsAtMostOnce(cfg, join, s.world, events[1..]);
      var c := ToSeq(s.claimed) + t.claims;
      assert Execute(cfg, join, w, events).claims == c;
      if s.claimed.Some? {
        var u := s.claimed.value;
        assert c == [u] + t.claims;
        assert u !in t.claims;
        assert forall j | 1 <= j < |c| :: c[j] == t.claims[j - 1];
        assert Elems(c) == {u} + Elems(t.claims);
      } else {
        assert c == t.claims;
      }
    }
  }

  /** The URLs the workers are scraping right now. */
  function InFlight(ws: seq<Phase>): set<Url> {
    set k | 0 <= k < |ws| && Scraping(ws[k]) :: ws[k].current
  }

  /** No two workers are inside `scrape` for the same URL. */
  predicate Exclusive(ws: seq<Phase>) {
    forall j, k | 0 <= j < |ws| && 0 <= k < |ws| && j != k && Scraping(ws[j]) && Scraping(ws[k]) ::
      ws[j].current != ws[k].current
  }

  /** What holds of every reachable world:
      - at most one worker scrapes a given URL;
      - the crawl log has no duplicate, and a URL being scraped is not in it yet;
      - the visited set is exactly the logged URLs plus those being scraped,
        so every claimed URL is either logged once or still in flight;
      - the match log has no duplicate, holds only visited URLs, and no URL
        whose fetch is still in flight. */
  ghost predicate Inv(w: World) {
    var f := w.frontier;
    var ws := w.workers;
    && Exclusive(ws)
    && NoDup(f.crawled)
    && (forall k | 0 <= k < |ws| && Scraping(ws[k]) :: ws[k].current !in f.crawled)
    && f.visited == Elems(f.crawled) + InFlight(ws)
    && NoDup(f.matches)
    && (forall u | u in f.matches :: u in f.visited)
    && (forall k | 0 <= k < |ws| && ws[k].Fetching? :: ws[k].current !in f.matches)
  }

  lemma {:induction false} InFlightUpdate(ws: seq<Phase>, k: nat, p: Phase)
    requires k < |ws| && Exclusive(ws)
    ensures InFlight(ws[k := p]) == InFlight(ws) - Held(ws[k]) + Held(p)
  {
    var ws' := ws[k := p];
    forall u | u in InFlight(ws')
      ensures u in InFlight(ws) - Held(ws[k]) + Held(p)
    {
      var j :| 0 <= j < |ws'| && Scraping(ws'[j]) && ws'[j].current == u;
      if j != k {
        assert ws'[j] == ws[j];
        assert u in InFlight(ws);
      }
    }
    forall u | u in InFlight(ws) - Held(ws[k]) + Held(p)
      ensures u in InFlight(ws')
    {
      if u in Held(p) {
        assert ws'[k] == p;
      } else {
        var j :| 0 <= j < |ws| && Scraping(ws[j]) && ws[j].current == u;
        assert j != k;
        assert ws'[j] == ws[j];
      }
    }
  }

  lemma StartEstablishesInv(start: Url, threads: nat)
    ensures Inv(Start(start, threads))
  {
    var w := Start(start, threads);
    assert InFlight(w.workers) == {};
    assert Elems(w.frontier.crawled) == {};
  }

  /** A won claim keeps the invariant: the claimed URL was in neither log
      nor in flight. */
  lemma ClaimKeepsInv(w: World, k: nat, f': State, p': Phase)
    requires Inv(w) && k < |w.workers| && w.workers[k].Dequeued?
    requires w.workers[k].current !in w.frontier.visited
    requires f'.visited == w.frontier.visited + {w.workers[k].current}
    requires f'.crawled == w.frontier.crawled && f'.matches == w.frontier.matches
    requires p' == Fetching(w.workers[k].current)
    ensures Inv(World(f', w.workers[k := p']))
  {
    var ws := w.workers;
    var ws' := ws[k := p'];
    InFlightUpdate(ws, k, p');
    assert forall j | 0 <= j < |ws| && j != k :: ws'[j] == ws[j];
    assert forall j | 0 <= j < |ws| && Scraping(ws[j]) :: ws[j].current in InFlight(ws);
  }

  /** Writing the crawl log keeps the invariant: the URL leaves the
      in-flight set as it enters the log, which did not hold it. */
  lemma LogKeepsInv(w: World, k: nat, f': State, p': Phase)
    requires Inv(w) && k < |w.workers| && w.workers[k].Logging?
    requires f'.crawled == w.frontier.crawled + [w.workers[k].current]
    requires f'.visited == w.frontier.visited && f'.matches == w.frontier.matches
    requires p'.Offering?
    ensures Inv(World(f', w.workers[k := p']))
  {
    var ws := w.workers;
    var ws' := ws[k := p'];
    var u := ws[k].current;
    InFlightUpdate(ws, k, p');
    assert forall j | 0 <= j < |ws| && j != k :: ws'[j] == ws[j];
    assert u in InFlight(ws);
    assert Elems(f'.crawled) == Elems(w.frontier.crawled) + {u};
  }

  /** Writing the match log keeps the invariant: the page's URL was visited,
      and its fetch had not arrived before. */
  lemma MatchKeepsInv(w: World, k: nat, f': State, p': Phase)
    requires Inv(w) && k < |w.workers| && w.workers[k].Fetching?
    requires f'.matches == w.frontier.matches + [w.workers[k].current]
    requires f'.visited == w.frontier.visited && f'.crawled == w.frontier.crawled
    requires p'.Extracting? && p'.current == w.workers[k].current
    ensures Inv(World(f', w.workers[k := p']))
  {
    var ws := w.workers;
    var ws' := ws[k := p'];
    InFlightUpdate(ws, k, p');
    assert forall j | 0 <= j < |ws| && j != k :: ws'[j] == ws[j];
    assert ws[k].current in InFlight(ws);
  }

  /** Any other step keeps the invariant: it changes neither the visited
      set nor a log, and the worker scrapes the same URL as before. */
  lemma QuietKeepsInv(w: World, k: nat, f': State, p': Phase)
    requires Inv(w) && k < |w.workers|
    requires f'.visited == w.frontier.visited && f'.crawled == w.frontier.crawled
    requires f'.matches == w.frontier.matches
    requires Held(p') == Held(w.workers[k])
    requires p'.Fetching? ==> p' == w.workers[k]
    ensures Inv(World(f', w.workers[k := p']))
  {
    var ws := w.workers;
    var ws' := ws[k := p'];
    InFlightUpdate(ws, k, p');
    assert forall j | 0 <= j < |ws| && j != k :: ws'[j] == ws[j];
  }

  lemma StepPreservesInv(cfg: Config, join: Resolver, w: World, e: Event)
    requires Inv(w)
    ensures Inv(Step(cfg, join, w, e).world)
  {
    if e.worker < |w.workers| {
      var f := w.frontier;
      var k := e.worker;
      var m := Act(cfg, join, f, w.workers[k], e.input);
      assert Step(cfg, join, w, e).world == World(m.frontier, w.workers[k := m.phase]);
      if m.claimed.Some? {
        ClaimKeepsInv(w, k, m.frontier, m.phase);
      } else if m.frontier.crawled != f.crawled {
        LogKeepsInv(w, k, m.frontier, m.phase);
      } else if m.frontier.matches != f.matches {
        MatchKeepsInv(w, k, m.frontier, m.phase);
      } else {
        QuietKeepsInv(w, k, m.frontier, m.phase);
      }
    }
  }

  lemma {:induction false} ExecutePreservesInv(cfg: Config, join: Resolver, w: World, events: seq<Event>)
    requires Inv(w)
    ensures Inv(Execute(cfg, join, w, events).final)
    decreases |events|
  {
    if events != [] {
      var s := Step(cfg, join, w, events[0]);
      StepPreservesInv(cfg, join, w, events[0]);
      ExecutePreservesInv(cfg, join, s.world, events[1..]);
    }
  }

  /** The main theorem. In every run from the start state, under any thread
      schedule: the crawl log and the match log never contain a duplicate;
      every URL that won the claim gate is in the crawl log or is being
      scraped right now, and not both; and at most one worker scrapes a
      given URL at any moment. */
  lemma CrawlLogDuplicateFree(cfg: Config, join: Resolver, start: Url, threads: nat, events: seq<Event>)
    ensures var t := Execute(cfg, join, Start(start, threads), events);
      && NoDup(t.claims)
      && NoDup(t.final.frontier.crawled)
      && NoDup(t.final.frontier.matches)
      && Elems(t.claims) == Elems(t.final.frontier.crawled) + InFlight(t.final.workers)
      && Elems(t.final.frontier.crawled) !! InFlight(t.final.workers)
      && Exclusive(t.final.workers)
  {
    var w := Start(start, threads);
    var t := Execute(cfg, join, w, events);
    StartEstablishesInv(start, threads);
    ExecutePreservesInv(cfg, join, w, events);
    ClaimsAtMostOnce(cfg, join, w, events);
    var ws := t.final.workers;
    forall u | u in InFlight(ws)
      ensures u !in t.final.frontier.crawled
    {
      var k :| 0 <= k < |ws| && Scraping(ws[k]) && ws[k].current == u;
    }
  }

  /** Both logs and the visited set only ever grow: a step appends to a log
      and never rewrites what is there. */
  lemma {:induction false} LogsOnlyGrow(cfg: Config, join: Resolver, w: World, events: seq<Event>)
    ensures var f' := Execute(cfg, join, w, events).final.frontier;
      && w.frontier.crawled <= f'.crawled
      && w.frontier.matches <= f'.matches
      && w.frontier.visited <= f'.visited
    decreases |events|
  {
    if events != [] {
      var s := Step(cfg, join, w, events[0]);
      if events[0].worker < |w.workers| {
        var m := Act(cfg, join, w.frontier, w.workers[events[0].worker], events[0].input);
        assert s.world.frontier == m.frontier;
      }
      LogsOnlyGrow(cfg, join, s.world, events[1..]);
      var f' := Execute(cfg, join, w, events).final.frontier;
      assert f' == Execute(cfg, join, s.world, events[1..]).final.frontier;
      PrefixTransitive(w.frontier.crawled, s.world.frontier.crawled, f'.crawled);
      PrefixTransitive(w.frontier.matches, s.world.frontier.matches, f'.matches);
    }
  }

  lemma PrefixTransitive<T>(a: seq<T>, b: seq<T>, c: seq<T>)
    requires a <= b && b <= c
    ensures a <= c
  {
    assert c[..|a|] == b[..|a|];
  }

  /** Every URL in the pending queue is the start URL or a link that passed
      the URL filter (`-u`); the start URL is the only one queued unfiltered. */
  predicate Admitted(cfg: Config, start: Url, q: seq<Url>) {
    forall j | 0 <= j < |q| :: q[j] == start || PassesUrlFilter(cfg.urlFilter, q[j])
  }

  lemma {:induction false} QueueOnlyAdmitsFilteredLinks(cfg: Config, join: Resolver, start: Url, w: World, events: seq<Event>)
    requires Admitted(cfg, start, w.frontier.queue)
    ensures Admitted(cfg, start, Execute(cfg, join, w, events).final.frontier.queue)
    decreases |events|
  {
    if events != [] {
      var s := Step(cfg, join, w, events[0]);
      if events[0].worker < |w.workers| {
        var m := Act(cfg, join, w.frontier, w.workers[events[0].worker], events[0].input);
        assert s.world.frontier == m.frontier;
        var q := w.frontier.queue;
        var q' := m.frontier.queue;
        assert QueueStep(cfg, w.frontier, q');
        if |q'| == |q| + 1 {
          assert forall j | 0 <= j < |q| :: q'[j] == q[j];
        } else if q != [] && q' == q[1..] {
          assert forall j | 0 <= j < |q'| :: q'[j] == q[j + 1];
        }
      }
      QueueOnlyAdmitsFilteredLinks(cfg, join, start, s.world, events[1..]);
    }
  }

  /** For a single worker: the URL it is scraping, if any. */
  function Pending(w: World): seq<Url>
    requires |w.workers| == 1
  {
    if Scraping(w.workers[0]) then [w.workers[0].current] else []
  }

  lemma OneWorkerStep(cfg: Config, join: Resolver, w: World, e: Event)
    requires |w.workers| == 1
    ensures var s := Step(cfg, join, w, e);
      w.frontier.crawled + Pending(w) + ToSeq(s.claimed) == s.world.frontier.crawled + Pending(s.world)
  {
    var s := Step(cfg, join, w, e);
    if e.worker < 1 {
      var p := w.workers[0];
      var m := Act(cfg, join, w.frontier, p, e.input);
      assert s.world == World(m.frontier, [m.phase]);
      if m.claimed.Some? {
        assert Pending(w) == [];
        assert Pending(s.world) == [m.claimed.value];
      } else if m.frontier.crawled != w.frontier.crawled {
        assert Pending(w) == [p.current];
        assert Pending(s.world) == [];
      } else {
        assert Held(m.phase) == Held(p);
        assert Pending(s.world) == Pending(w);
      }
    }
  }

  /** With one worker (`-t 1`) the crawl log is the claim order: what was
      logged plus what is being scraped grows exactly by the claimed URLs,
      in order. */
  lemma {:induction false} OneWorkerLogsInClaimOrder(cfg: Config, join: Resolver, w: World, events: seq<Event>)
    requires |w.workers| == 1
    ensures var t := Execute(cfg, join, w, events);
      w.frontier.crawled + Pending(w) + t.claims == t.final.frontier.crawled + Pending(t.final)
    decreases |events|
  {
    if events != [] {
      var s := Step(cfg, join, w, events[0]);
      var t := Execute(cfg, join, s.world, events[1..]);
      OneWorkerStep(cfg, join, w, events[0]);
      OneWorkerLogsInClaimOrder(cfg, join, s.world, events[1..]);
      assert Execute(cfg, join, w, events).claims == ToSeq(s.claimed) + t.claims;
      assert w.frontier.crawled + Pending(w) + (ToSeq(s.claimed) + t.claims)
          == (w.frontier.crawled + Pending(w) + ToSeq(s.claimed)) + t.claims;
    }
  }

  /** With two workers the crawl log need not follow claim order: here
      the queue holds `a` and `b` (as after a page offered both), worker 0
      claims `a` and worker 1 claims `b`, and worker 1, whose fetch fails
      first, logs `b` while `a` is still being scraped. */
  lemma TwoWorkersLogOutOfClaimOrder(cfg: Config, join: Resolver)
    ensures var w := World(State(["a", "b"], {}, [], []), [Idle, Idle]);
      var events := [Event(0, Next), Event(0, Next), Event(1, Next), Event(1, Next),
                     Event(1, Arrive(FetchFailed)), Event(1, Next)];
      var t := Execute(cfg, join, w, events);
      && t.claims == ["a", "b"]
      && t.final.frontier.crawled == ["b"]
      && "a" in InFlight(t.final.workers)
  {
    var w0 := World(State(["a", "b"], {}, [], []), [Idle, Idle]);
    var events := [Event(0, Next), Event(0, Next), Event(1, Next), Event(1, Next),
                   Event(1, Arrive(FetchFailed)), Event(1, Next)];
    var w1 := World(State(["b"], {}, [], []), [Dequeued("a"), Idle]);
    var w2 := World(State(["b"], {"a"}, [], []), [Fetching("a"), Idle]);
    var w6 := World(State([], {"a", "b"}, ["b"], []), [Fetching("a"), Offering("b", [], 0)]);
    assert Step(cfg, join, w0, events[0]) == Stepped(w1, None);
    assert Step(cfg, join, w1, events[1]) == Stepped(w2, Some("a"));
    SecondWorkerLogsFirst(cfg, join);
    assert events[2..] == [Event(1, Next), Event(1, Next), Event(1, Arrive(FetchFailed)), Event(1, Next)];
    assert Execute(cfg, join, w1, events[1..]) == Trace(w6, ["a", "b"]);
    assert Scraping(w6.workers[0]);
  }

  /** The second half of the run above: worker 1 claims `b`, its fetch
      fails, and it logs `b`, while worker 0 stays on `a`. */
  lemma SecondWorkerLogsFirst(cfg: Config, join: Resolver)
    ensures Execute(cfg, join, World(State(["b"], {"a"}, [], []), [Fetching("a"), Idle]),
                    [Event(1, Next), Event(1, Next), Event(1, Arrive(FetchFailed)), Event(1, Next)])
         == Trace(World(State([], {"a", "b"}, ["b"], []), [Fetching("a"), Offering("b", [], 0)]), ["b"])
  {
    var w2 := World(State(["b"], {"a"}, [], []), [Fetching("a"), Idle]);
    var events := [Event(1, Next), Event(1, Next), Event(1, Arrive(FetchFailed)), Event(1, Next)];
    var w3 := World(State([], {"a"}, [], []), [Fetching("a"), Dequeued("b")]);
    var w4 := World(State([], {"a", "b"}, [], []), [Fetching("a"), Fetching("b")]);
    var w5 := World(State([], {"a", "b"}, [], []), [Fetching("a"), Logging("b", [])]);
    var w6 := World(State([], {"a", "b"}, ["b"], []), [Fetching("a"), Offering("b", [], 0)]);
    assert Step(cfg, join, w2, events[0]) == Stepped(w3, None);
    assert Step(cfg, join, w3, events[1]) == Stepped(w4, Some("b"));
    assert Step(cfg, join, w4, events[2]) == Stepped(w5, None);
    assert Step(cfg, join, w5, events[3]) == Stepped(w6, None);
    assert Execute(cfg, join, w5, events[3..]) == Trace(w6, []);
  }

  /** Started with a single worker, the crawl log followed by the URL in
      flight is exactly the sequence of won claims. */
  lemma OneWorkerCrawlLogIsClaimOrder(cfg: Config, join: Resolver, start: Url, events: seq<Event>)
    ensures var t := Execute(cfg, join, Start(start, 1), events);
      t.claims == t.final.frontier.crawled + Pending(t.final)
  {
    var w := Start(start, 1);
    OneWorkerLogsInClaimOrder(cfg, join, w, events);
    assert w.frontier.crawled + Pending(w) == [];
  }

  /** What one worker reaches when it alone receives `inputs`, one after
      another: the shared state, its phase, and the URLs it claimed. */
  datatype Solo = Solo(frontier: State, phase: Phase, claims: seq<Url>)

  function Alone(cfg: Config, join: Resolver, f: State, p: Phase, inputs: seq<Input>): Solo
    decreases |inputs|
  {
    if inputs == [] then Solo(f, p, [])
    else
      var m := Act(cfg, join, f, p, inputs[0]);
      var a := Alone(cfg, join, m.frontier, m.phase, inputs[1..]);
      Solo(a.frontier, a.phase, ToSeq(m.claimed) + a.claims)
  }

  /** The first input of a solo run is one step of `Act`. */
  lemma AloneCons(cfg: Config, join: Resolver, f: State, p: Phase, i: Input, rest: seq<Input>)
    ensures var m := Act(cfg, join, f, p, i);
      var a := Alone(cfg, join, m.frontier, m.phase, rest);
      Alone(cfg, join, f, p, [i] + rest) == Solo(a.frontier, a.phase, ToSeq(m.claimed) + a.claims)
  {
    assert ([i] + rest)[0] == i && ([i] + rest)[1..] == rest;
  }

  /** The events that deliver `inputs` to worker `k`. */
  function Addressed(k: nat, inputs: seq<Input>): (es: seq<Event>)
    ensures |es| == |inputs|
    decreases |inputs|
  {
    if inputs == [] then [] else [Event(k, inputs[0])] + Addressed(k, inputs[1..])
  }

  /** A run in which only worker `k` acts is that worker's solo run: every
      other worker keeps its phase. */
  lemma {:induction false} RunAlone(cfg: Config, join: Resolver, w: World, k: nat, inputs: seq<Input>)
    requires k < |w.workers|
    ensures var a := Alone(cfg, join, w.frontier, w.workers[k], inputs);
      Execute(cfg, join, w, Addressed(k, inputs)) == Trace(World(a.frontier, w.workers[k := a.phase]), a.claims)
    decreases |inputs|
  {
    if inputs == [] {
      assert w.workers[k := w.workers[k]] == w.workers;
    } else {
      var es := Addressed(k, inputs);
      assert es[0] == Event(k, inputs[0]) && es[1..] == Addressed(k, inputs[1..]);
      var m := Act(cfg, join, w.frontier, w.workers[k], inputs[0]);
      var w1 := World(m.frontier, w.workers[k := m.phase]);
      assert Step(cfg, join, w, es[0]) == Stepped(w1, m.claimed);
      RunAlone(cfg, join, w1, k, inputs[1..]);
      var a := Alone(cfg, join, m.frontier, m.phase, inputs[1..]);
      assert w1.workers[k := a.phase] == w.workers[k := a.phase];
    }
  }

  /** `n` consecutive turns of a loop body. */
  function Nexts(n: nat): (ins: seq<Input>)
    ensures |ins| == n
  {
    if n == 0 then [] else [Next] + Nexts(n - 1)
  }

  /** A worker taking `n` turns alone, counted rather than listed. */
  function Turns(cfg: Config, join: Resolver, f: State, p: Phase, n: nat): Solo
    decreases n
  {
    if n == 0 then Solo(f, p, [])
    else
      var m := Act(cfg, join, f, p, Next);
      var t := Turns(cfg, join, m.frontier, m.phase, n - 1);
      Solo(t.frontier, t.phase, ToSeq(m.claimed) + t.claims)
  }

  lemma {:induction false} AloneNexts(cfg: Config, join: Resolver, f: State, p: Phase, n: nat)
    ensures Alone(cfg, join, f, p, Nexts(n)) == Turns(cfg, join, f, p, n)
    decreases n
  {
    if n > 0 {
      var m := Act(cfg, join, f, p, Next);
      AloneCons(cfg, join, f, p, Next, Nexts(n - 1));
      AloneNexts(cfg, join, m.frontier, m.phase, n - 1);
    }
  }

  /** A worker in the link-extraction loop that finishes `scrape` alone
      keeps exactly what `ExtractFrom` keeps, leaves the `try` block, and
      writes the crawl log; it changes nothing else. */
  lemma {:induction false} SoloExtract(cfg: Config, join: Resolver, f: State, u: Url, os: seq<Outcome>, kept: seq<Url>)
    ensures Turns(cfg, join, f, Extracting(u, os, kept), |Reached(os)| + 2)
         == Solo(LogCrawled(f, u), Offering(u, ExtractFrom(f.visited, os, kept), 0), [])
    decreases |os|
  {
    if os == [] || os[0] == Stop {
      var f2 := LogCrawled(f, u);
      assert Turns(cfg, join, f2, Offering(u, kept, 0), 0) == Solo(f2, Offering(u, kept, 0), []);
      assert Turns(cfg, join, f, Logging(u, kept), 1) == Solo(f2, Offering(u, kept, 0), []);
    } else {
      var next := ExtractOne(f.visited, os[0], kept);
      assert Act(cfg, join, f, Extracting(u, os, kept), Next) == Move(f, Extracting(u, os[1..], next), None);
      assert |Reached(os)| == |Reached(os[1..])| + 1;
      SoloExtract(cfg, join, f, u, os[1..], next);
    }
  }

  /** The inputs of one uninterrupted `scrape` of `u`: the fetch
      completes with `r`; for a fetched page the link loop takes one turn
      per reference it gets through and one more to leave the `try` block;
      then the crawl log is written. */
  function ScrapeInputs(join: Resolver, u: Url, r: FetchResult): seq<Input> {
    [Arrive(r)] + Nexts(if r.Fetched? then |Reached(Outcomes(join, u, r.hrefs))| + 2 else 1)
  }

  /** A worker that scrapes a page while no other worker acts ends in
      exactly the state `ScrapePage` describes, ready to offer the links it
      kept, and claims nothing on the way. */
  lemma SoloScrapeIsScrapePage(cfg: Config, join: Resolver, f: State, u: Url, r: FetchResult)
    ensures var s := ScrapePage(cfg, join, f, u, r);
      Alone(cfg, join, f, Fetching(u), ScrapeInputs(join, u, r)) == Solo(s.frontier, Offering(u, s.kept, 0), [])
  {
    var n := if r.Fetched? then |Reached(Outcomes(join, u, r.hrefs))| + 2 else 1;
    var m := Act(cfg, join, f, Fetching(u), Arrive(r));
    AloneCons(cfg, join, f, Fetching(u), Arrive(r), Nexts(n));
    AloneNexts(cfg, join, m.frontier, m.phase, n);
    match r
    case FetchFailed =>
      var f2 := LogCrawled(f, u);
      assert Turns(cfg, join, f2, Offering(u, [], 0), 0) == Solo(f2, Offering(u, [], 0), []);
    case Fetched(text, hrefs) =>
      var f1 := NoteMatch(cfg, f, u, text);
      var os := Outcomes(join, u, hrefs);
      assert m == Move(f1, Extracting(u, os, []), None);
      SoloExtract(cfg, join, f1, u, os, []);
      assert ScrapePage(cfg, join, f, u, r) == Scraped(LogCrawled(f1, u), ExtractFrom(f1.visited, os, []));
  }

  /** A worker that runs its offer loop while no other worker acts queues
      exactly what `OfferLinks` queues, and its `count_new` agrees. */
  lemma {:induction false} SoloOfferIsOfferLinks(cfg: Config, join: Resolver, f: State, u: Url, links: seq<Url>, countNew: nat)
    ensures var o := OfferLinks(cfg, f, links, countNew);
      Turns(cfg, join, f, Offering(u, links, countNew), |links|) == Solo(o.frontier, Offering(u, [], o.countNew), [])
    decreases |links|
  {
    if links != [] {
      var o := Offer(cfg, f, links[0]);
      var n := if o.appended then countNew + 1 else countNew;
      SoloOfferIsOfferLinks(cfg, join, o.frontier, u, links[1..], n);
      OfferTurn(cfg, join, f, u, links, countNew);
      OfferLinksCons(cfg, f, links, countNew);
    }
  }

  /** One turn of the offer loop offers the first link and leaves the
      rest of the turns to the remaining links. */
  lemma OfferTurn(cfg: Config, join: Resolver, f: State, u: Url, links: seq<Url>, countNew: nat)
    requires links != []
    ensures var o := Offer(cfg, f, links[0]);
      Turns(cfg, join, f, Offering(u, links, countNew), |links|)
      == Turns(cfg, join, o.frontier, Offering(u, links[1..], if o.appended then countNew + 1 else countNew), |links[1..]|)
  {
    var o := Offer(cfg, f, links[0]);
    var n := if o.appended then countNew + 1 else countNew;
    assert Act(cfg, join, f, Offering(u, links, countNew), Next) == Move(o.frontier, Offering(u, links[1..], n), None);
    TurnsQuietStep(cfg, join, f, Offering(u, links, countNew), |links|, o.frontier, Offering(u, links[1..], n));
  }

  /** A turn that claims nothing leaves the remaining turns to the phase it
      moves to. */
  lemma TurnsQuietStep(cfg: Config, join: Resolver, f: State, p: Phase, n: nat, f1: State, p1: Phase)
    requires n > 0
    requires Act(cfg, join, f, p, Next) == Move(f1, p1, None)
    ensures Turns(cfg, join, f, p, n) == Turns(cfg, join, f1, p1, n - 1)
  {
    var t := Turns(cfg, join, f1, p1, n - 1);
    assert ToSeq<Url>(None) + t.claims == t.claims;
  }

  /** A worker that pops the queue and passes the claim gate while no other
      worker acts: a URL not yet visited is marked visited and its fetch
      starts; an already visited one (a duplicate queue entry) is dropped,
      leaving the rest of the queue, the visited set and the logs as they
      were. */
  lemma SoloClaim(cfg: Config, join: Resolver, f: State)
    requires f.queue != []
    ensures var u := f.queue[0];
      var rest := f.(queue := f.queue[1..]);
      var t := Turns(cfg, join, f, Idle, 2);
      if u in f.visited then t == Solo(rest, Idle, [])
      else t == Solo(rest.(visited := rest.visited + {u}), Fetching(u), [u])
  {
    var u := f.queue[0];
    var rest := f.(queue := f.queue[1..]);
    assert Act(cfg, join, f, Idle, Next) == Move(rest, Dequeued(u), None);
    var m := Act(cfg, join, rest, Dequeued(u), Next);
    assert Turns(cfg, join, m.frontier, m.phase, 0) == Solo(m.frontier, m.phase, []);
  }
}
