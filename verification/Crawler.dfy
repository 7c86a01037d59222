/**
 * The LRU crawler of crawler.c on one LRU queue.
 *
 * The crawler's pseudo item starts at the tail and moves towards the head one item
 * at a time, each step under the queue's lock. Between steps other threads insert
 * items at the head, unlink items, and move items to the head.
 */
module Crawler {
  import Lists = LruQueue
  import opened Sequences

  /** A queue, head first, with the crawler's place: `ahead` lies between the head and
      the crawler. `passed` logs the items the crawler changed places with and
      `evaluated` counts those that were not stopped by the limit. */
  datatype Crawl<T> = Crawl(ahead: seq<T>, behind: seq<T>, on: bool, remaining: nat, passed: seq<T>, evaluated: nat)

  function Items<T>(c: Crawl<T>): seq<T> {
    c.ahead + c.behind
  }

  /** do_lru_crawler_start, with the limit it is asked for; 0 is no limit. */
  function Start<T>(c: Crawl<T>, limit: nat): Crawl<T> {
    if c.on then c
    else Crawl(Items(c), [], true, if limit == 0 then 0 else limit + 1, [], 0)
  }

  /** lru_crawler_class_done */
  function Done<T>(c: Crawl<T>): Crawl<T> {
    c.(ahead := [], behind := Items(c), on := false)
  }

  /** do_item_crawl_q, when there is an item before the crawler. */
  function Pass<T>(c: Crawl<T>): Crawl<T>
    requires c.ahead != []
  {
    var n := |c.ahead| - 1;
    c.(ahead := c.ahead[..n], behind := [c.ahead[n]] + c.behind, passed := c.passed + [c.ahead[n]])
  }

  /** One round of the crawler thread for this queue. */
  function Step<T>(c: Crawl<T>): Crawl<T> {
    if !c.on then c
    else if c.ahead == [] then Done(c)
    else
      var d := Pass(c);
      if d.remaining == 0 then d.(evaluated := d.evaluated + 1)
      else if d.remaining == 1 then Done(d.(remaining := 0))
      else d.(remaining := d.remaining - 1, evaluated := d.evaluated + 1)
  }

  /** What happens to the queue between rounds. */
  datatype Event<T> = Round | Insert(x: T) | Unlink(x: T) | Relink(x: T)

  function Cons<T>(c: Crawl<T>, x: T): Crawl<T> {
    if c.on then c.(ahead := [x] + c.ahead) else c.(behind := [x] + c.behind)
  }

  function Drop<T(==)>(c: Crawl<T>, x: T): Crawl<T> {
    c.(ahead := Remove(c.ahead, x), behind := Remove(c.behind, x))
  }

  function Next<T(==)>(c: Crawl<T>, e: Event<T>): Crawl<T> {
    match e
    case Round => Step(c)
    case Insert(x) => Cons(c, x)
    case Unlink(x) => Drop(c, x)
    case Relink(x) => Cons(Drop(c, x), x)
  }

  predicate Enabled<T(==)>(c: Crawl<T>, e: Event<T>) {
    match e
    case Round => true
    case Insert(x) => x !in Items(c)
    case Unlink(x) => x in Items(c)
    case Relink(x) => x in Items(c)
  }

  ghost predicate Run<T>(cs: seq<Crawl<T>>, es: seq<Event<T>>) {
    && |cs| == |es| + 1
    && (forall i | 0 <= i < |es| :: Enabled(cs[i], es[i]) && cs[i + 1] == Next(cs[i], es[i]))
  }

  // ----- the list of real items -----

  /** A round of the crawler never changes the items or their order. */
  lemma RoundKeepsOrder<T>(c: Crawl<T>)
    ensures Items(Step(c)) == Items(c)
  {
    if c.on && c.ahead != [] {
      var n := |c.ahead| - 1;
      assert c.ahead == c.ahead[..n] + [c.ahead[n]];
      assert Items(Pass(c)) == Items(c);
    }
  }

  // ----- what the crawler has passed -----

  ghost function Count<T>(s: seq<T>, x: T): nat {
    multiset(s)[x]
  }

  /** No item is in the queue twice, and everything behind the crawler was passed. */
  ghost predicate Inv<T>(c: Crawl<T>) {
    && Distinct(Items(c))
    && (if c.on then forall x | x in c.behind :: x in c.passed else c.ahead == [])
  }

  /** New items, and items moved up, come to the head of the queue. */
  lemma ConsItems<T>(c: Crawl<T>, x: T)
    requires Inv(c)
    ensures Items(Cons(c, x)) == [x] + Items(c)
  {}

  /** An item that leaves the queue leaves the others in order. */
  lemma DropItems<T>(c: Crawl<T>, x: T)
    requires Inv(c)
    ensures Items(Drop(c, x)) == Remove(Items(c), x)
  {
    RemoveCat(c.ahead, c.behind, x);
  }

  lemma DropInv<T>(c: Crawl<T>, x: T)
    requires Inv(c)
    ensures Inv(Drop(c, x)) && x !in Items(Drop(c, x))
  {
    DropItems(c, x);
    RemoveDistinct(Items(c), x);
    RemoveMembers(Items(c), x, x);
    forall y | y in Remove(c.behind, x) ensures y in c.behind { RemoveOnly(c.behind, x, y); }
  }

  lemma StepInv<T>(c: Crawl<T>)
    requires Inv(c)
    ensures Inv(Step(c))
  {
    RoundKeepsOrder(c);
  }

  lemma NextInv<T>(c: Crawl<T>, e: Event<T>)
    requires Inv(c) && Enabled(c, e)
    ensures Inv(Next(c, e))
  {
    match e
    case Round => StepInv(c);
    case Insert(x) => ConsItems(c, x);
    case Unlink(x) => DropInv(c, x);
    case Relink(x) =>
      DropInv(c, x);
      ConsItems(Drop(c, x), x);
  }

  lemma {:induction false} RunInv<T>(cs: seq<Crawl<T>>, es: seq<Event<T>>, i: nat)
    requires Run(cs, es) && Inv(cs[0]) && i < |cs|
    ensures Inv(cs[i])
  {
    if i > 0 {
      RunInv(cs, es, i - 1);
      NextInv(cs[i - 1], es[i - 1]);
      assert cs[i - 1 + 1] == Next(cs[i - 1], es[i - 1]);
    }
  }

  ghost predicate Started<T>(c: Crawl<T>, limit: nat) {
    c.on && c.behind == [] && c.passed == [] && c.evaluated == 0 && c.remaining == if limit == 0 then 0 else limit + 1
  }

  lemma StartStarts<T>(c: Crawl<T>, limit: nat)
    requires Inv(c) && !c.on
    ensures Started(Start(c, limit), limit) && Inv(Start(c, limit)) && Items(Start(c, limit)) == Items(c)
  {}

  /** The crawl ends in this round because the crawler is at the head. */
  ghost predicate Finishes<T>(c: Crawl<T>) {
    c.on && c.ahead == []
  }

  /** A crawl without a limit has no other end. */
  lemma {:induction false} NoOtherEnd<T>(cs: seq<Crawl<T>>, es: seq<Event<T>>, m: nat)
    requires Run(cs, es) && Started(cs[0], 0) && m < |es| && (forall i | 0 <= i <= m :: cs[i].on)
    ensures forall i | 0 <= i <= m :: cs[i].remaining == 0
    ensures cs[m + 1].on || (es[m] == Round && Finishes(cs[m]))
  {
    var i := 0;
    while i < m
      invariant i <= m && forall j | 0 <= j <= i :: cs[j].remaining == 0
    {
      assert cs[i + 1] == Next(cs[i], es[i]);
      i := i + 1;
    }
    assert cs[m + 1] == Next(cs[m], es[m]);
  }

  /** Whatever other threads did, every item in the queue when a crawl without a limit ends was passed. */
  lemma PassesAll<T>(cs: seq<Crawl<T>>, es: seq<Event<T>>, m: nat, x: T)
    requires Run(cs, es) && Inv(cs[0]) && Started(cs[0], 0) && m < |es|
    requires (forall i | 0 <= i <= m :: cs[i].on) && !cs[m + 1].on
    ensures Items(cs[m + 1]) == Items(cs[m])
    ensures x in Items(cs[m + 1]) ==> x in cs[m + 1].passed
  {
    NoOtherEnd(cs, es, m);
    RunInv(cs, es, m);
    assert cs[m + 1] == Next(cs[m], es[m]);
    RoundKeepsOrder(cs[m]);
  }

  /** The event does not touch the item. */
  predicate Spares<T(==)>(e: Event<T>, x: T) {
    e == Round || e.x != x
  }

  /** How often an item that was left alone has been passed: once if it is behind the crawler. */
  ghost predicate Once<T>(c: Crawl<T>, x: T) {
    x in Items(c) && Count(c.passed, x) == if x in c.behind then 1 else 0
  }

  lemma OnceStep<T>(c: Crawl<T>, e: Event<T>, x: T)
    requires Inv(c) && c.on && Enabled(c, e) && Spares(e, x) && Once(c, x)
    ensures x in Items(Next(c, e)) && (Next(c, e).on ==> Once(Next(c, e), x))
    ensures Finishes(c) && e == Round ==> Count(Next(c, e).passed, x) == 1
  {
    match e
    case Round =>
      RoundKeepsOrder(c);
      Halves(c);
      if c.ahead != [] {
        var p := c.ahead[|c.ahead| - 1];
        assert p in c.ahead;
        assert multiset(c.passed + [p]) == multiset(c.passed) + multiset{p};
      }
    case Insert(y) =>
    case Unlink(y) =>
      DropSpares(c, y, x);
    case Relink(y) =>
      DropSpares(c, y, x);
  }

  lemma DropSpares<T>(c: Crawl<T>, y: T, x: T)
    requires Inv(c) && x != y && x in Items(c)
    ensures x in Items(Drop(c, y)) && (x in Drop(c, y).behind <==> x in c.behind)
    ensures (x in Drop(c, y).ahead <==> x in c.ahead)
  {
    Halves(c);
    RemoveMembers(c.ahead, y, x);
    RemoveMembers(c.behind, y, x);
  }

  lemma Halves<T>(c: Crawl<T>)
    requires Distinct(Items(c))
    ensures Distinct(c.ahead) && Distinct(c.behind) && forall x | x in c.ahead :: x !in c.behind
  {
    assert forall i | 0 <= i < |c.behind| :: c.behind[i] == Items(c)[|c.ahead| + i];
    assert forall i | 0 <= i < |c.ahead| :: c.ahead[i] == Items(c)[i];
  }

  /** An item that no other thread touched during a crawl without a limit is passed exactly once. */
  lemma PassedOnce<T>(cs: seq<Crawl<T>>, es: seq<Event<T>>, m: nat, x: T)
    requires Run(cs, es) && Inv(cs[0]) && Started(cs[0], 0) && m < |es|
    requires (forall i | 0 <= i <= m :: cs[i].on) && !cs[m + 1].on
    requires x in Items(cs[0]) && forall i | 0 <= i <= m :: Spares(es[i], x)
    ensures x in Items(cs[m + 1]) && Count(cs[m + 1].passed, x) == 1
  {
    OnceUpTo(cs, es, m, x);
    NoOtherEnd(cs, es, m);
    RunInv(cs, es, m);
    OnceStep(cs[m], es[m], x);
    assert cs[m + 1] == Next(cs[m], es[m]);
  }

  lemma {:induction false} OnceUpTo<T>(cs: seq<Crawl<T>>, es: seq<Event<T>>, m: nat, x: T)
    requires Run(cs, es) && Inv(cs[0]) && Started(cs[0], 0) && m < |cs| && (forall i | 0 <= i <= m :: cs[i].on)
    requires x in Items(cs[0]) && forall i | 0 <= i < m :: Spares(es[i], x)
    ensures Once(cs[m], x)
  {
    if m > 0 {
      OnceUpTo(cs, es, m - 1, x);
      RunInv(cs, es, m - 1);
      OnceStep(cs[m - 1], es[m - 1], x);
      assert cs[m - 1 + 1] == Next(cs[m - 1], es[m - 1]);
    }
  }

  /** While a crawl is on it has evaluated what it has passed; and with a limit of `n`
      items it counts down by one for each of them. */
  lemma {:induction false} EvaluatesPassed<T>(cs: seq<Crawl<T>>, es: seq<Event<T>>, n: nat, m: nat)
    requires Run(cs, es) && Started(cs[0], n) && m < |cs| && forall i | 0 <= i <= m :: cs[i].on
    ensures cs[m].evaluated == |cs[m].passed|
    ensures n == 0 ==> cs[m].remaining == 0
    ensures n > 0 ==> cs[m].remaining > 0 && cs[m].evaluated + cs[m].remaining - 1 == n
  {
    if m > 0 {
      EvaluatesPassed(cs, es, n, m - 1);
      assert cs[m - 1 + 1] == Next(cs[m - 1], es[m - 1]);
    }
  }

  /** Whatever other threads do, a crawl with a limit of `n` items ends in one of two ways: at
      the head of the queue, with at most `n` items evaluated, or before it with exactly `n`;
      the item it has passed last is then not evaluated. */
  lemma LimitHolds<T>(cs: seq<Crawl<T>>, es: seq<Event<T>>, n: nat, m: nat)
    requires Run(cs, es) && Started(cs[0], n) && n > 0 && m < |es|
    requires (forall i | 0 <= i <= m :: cs[i].on) && !cs[m + 1].on
    ensures es[m] == Round && Items(cs[m + 1]) == Items(cs[m])
    ensures if cs[m].ahead == []
      then cs[m + 1].evaluated == |cs[m + 1].passed| <= n
      else cs[m + 1].evaluated == n == |cs[m + 1].passed| - 1 && cs[m + 1].remaining == 0
  {
    EvaluatesPassed(cs, es, n, m);
    RoundKeepsOrder(cs[m]);
    assert cs[m + 1] == Next(cs[m], es[m]);
  }

  /** A crawl with a limit of `n`, after `i` rounds without other threads: it has evaluated
      as many items, from the tail on, until there are `n` or no more, and is then off. */
  ghost predicate AfterRounds<T>(c: Crawl<T>, all: seq<T>, n: nat, i: nat) {
    var k := if n < |all| then n else |all|;
    && c.on == (i <= k)
    && c.evaluated == (if i <= k then i else k) <= |c.passed|
    && Items(c) == all
    && (i <= k ==> c.ahead == all[..|all| - i] && c.remaining == n + 1 - i && |c.passed| == i)
    && forall j | 0 <= j < c.evaluated :: c.passed[j] == all[|all| - 1 - j]
  }

  lemma OneMoreRound<T>(c: Crawl<T>, all: seq<T>, n: nat, i: nat)
    requires AfterRounds(c, all, n, i) && n > 0
    ensures AfterRounds(Step(c), all, n, i + 1)
  {
    RoundKeepsOrder(c);
    if c.on && c.ahead != [] {
      var d := Pass(c);
      assert d.passed[..i] == c.passed && d.passed[i] == all[|all| - 1 - i];
    }
  }

  /** Left alone, a crawl with a limit evaluates exactly the last `n` items of the queue, or
      all if there are not so many, from the tail on, and is off one round later. */
  lemma {:induction false} LimitedAlone<T>(cs: seq<Crawl<T>>, es: seq<Event<T>>, n: nat, i: nat)
    requires Run(cs, es) && Started(cs[0], n) && n > 0 && forall j | 0 <= j < |es| :: es[j] == Round
    requires i < |cs|
    ensures AfterRounds(cs[i], Items(cs[0]), n, i)
  {
    if i == 0 {
      assert cs[0].ahead == Items(cs[0]);
    } else {
      hide AfterRounds;
      LimitedAlone(cs, es, n, i - 1);
      assert cs[i - 1 + 1] == Next(cs[i - 1], es[i - 1]);
      OneMoreRound(cs[i - 1], Items(cs[0]), n, i - 1);
    }
  }

  /** Left alone, the crawler passes every item once, from the tail to the head, and
      is off the queue one round later. */
  lemma {:induction false} CrawlAlone<T>(cs: seq<Crawl<T>>, es: seq<Event<T>>, i: nat)
    requires Run(cs, es) && Started(cs[0], 0) && i < |cs| && forall j | 0 <= j < |es| :: es[j] == Round
    ensures var all := Items(cs[0]); i <= |all| ==>
      cs[i].on && cs[i].remaining == 0 && cs[i].ahead == all[..|all| - i] && cs[i].behind == all[|all| - i..]
      && |cs[i].passed| == cs[i].evaluated == i && forall j | 0 <= j < i :: cs[i].passed[j] == all[|all| - 1 - j]
    ensures i == |Items(cs[0])| + 1 ==>
      !cs[i].on && cs[i].passed == cs[i - 1].passed && cs[i].evaluated == i - 1 && Items(cs[i]) == Items(cs[0])
  {
    if i > 0 {
      CrawlAlone(cs, es, i - 1);
      assert cs[i - 1 + 1] == Next(cs[i - 1], es[i - 1]);
    }
  }

  /** The crawler of one queue, on the linked queue itself. */
  class LruCrawler {
    const queue: Lists.Queue
    const pseudo: Lists.Node
    var on: bool
    var remaining: nat
    ghost var ahead: seq<Lists.Node>
    ghost var behind: seq<Lists.Node>
    ghost var passed: seq<Lists.Node>
    ghost var evaluated: nat

    ghost function Snapshot(): Crawl<Lists.Node>
      reads this
    {
      Crawl(ahead, behind, on, remaining, passed, evaluated)
    }

    ghost predicate Valid()
      reads `on, `ahead, `behind, queue, queue.list
    {
      && queue.Valid() && pseudo.crawler
      && queue.list == ahead + (if on then [pseudo] else []) + behind
      && (!on ==> ahead == [])
      && (forall x | x in ahead + behind :: x != pseudo)
    }

    constructor (queue: Lists.Queue)
      requires queue.Valid()
      ensures Valid() && this.queue == queue && !on && Items(Snapshot()) == queue.list && fresh(pseudo)
    {
      hide Lists.Real, Lists.Total, Lists.Queue.Linked;
      this.queue := queue;
      var node := new Lists.Node(true, 0);
      pseudo, on, remaining := node, false, 0;
      ahead, behind, passed, evaluated := [], queue.list, [], 0;
    }

    /** do_lru_crawler_start; `cap` asks for the current length of the queue. */
    method StartCrawl(limit: nat, cap: bool) returns (started: bool)
      requires Valid()
      modifies this, queue, queue.list, pseudo
      ensures Valid() && started == !old(on)
      ensures Snapshot() == Start(old(Snapshot()), if cap then old(queue.size) else limit)
    {
      hide Lists.Real, Lists.Total, Lists.Queue.Linked;
      started := !on;
      if on { return; }
      on := true;
      remaining := if cap then queue.size else limit;
      if remaining != 0 { remaining := remaining + 1; }
      queue.LinkTail(pseudo);
      ahead, behind, passed, evaluated := ahead + behind, [], [], 0;
    }

    /** Another thread puts an item at the head of the queue. */
    method InsertItem(it: Lists.Node)
      requires Valid() && it !in queue.list && it != pseudo && !it.crawler
      modifies queue, queue.list, it, `ahead, `behind
      ensures Valid() && Snapshot() == Cons(old(Snapshot()), it)
    {
      hide Lists.Real, Lists.Total, Lists.Queue.Linked;
      queue.LinkQ(it);
      if on { ahead := [it] + ahead; } else { behind := [it] + behind; }
      assert queue.list == ahead + (if on then [pseudo] else []) + behind;
      assert forall x | x in ahead + behind :: x == it || x in old(ahead) + old(behind);
    }

    lemma QueueDistinct()
      requires queue.Valid()
      ensures Distinct(queue.list)
    {}

    /** Another thread takes an item off the queue. */
    method UnlinkItem(it: Lists.Node)
      requires Valid() && it in Items(Snapshot()) && !it.crawler
      modifies queue, queue.list, `ahead, `behind
      ensures Valid() && Snapshot() == Drop(old(Snapshot()), it)
    {
      hide Lists.Real, Lists.Total, Lists.Queue.Linked, Remove, Distinct;
      ghost var p := if on then [pseudo] else [];
      QueueDistinct();
      DistinctParts(queue.list, ahead, p, behind);
      ghost var k := PlaceOf(ahead, p, behind, it);
      queue.UnlinkQ(it, k);
      DropOthers(ahead, behind, it);
      if ahead == [] { RemoveAbsent(ahead, it); }
      ahead, behind := Remove(ahead, it), Remove(behind, it);
    }

    /** The crawler is at `at` or half off the queue, which without it holds the items. */
    ghost predicate Leaving(at: nat)
      reads `ahead, `behind, queue, queue.list, pseudo
    {
      && queue.Valid() && pseudo.crawler
      && (if at < |queue.list| then queue.list[at] == pseudo else queue.HalfOff(pseudo))
      && (if at < |queue.list| then Without(queue.list, at) else queue.list) == ahead + behind
      && (forall x | x in ahead + behind :: x != pseudo)
    }

    /** The crawler moves one item up, or leaves the head of the queue. */
    method Move() returns (search: Lists.Node?, ghost at: nat)
      requires Valid() && on
      modifies queue, queue.list, `ahead, `behind, `passed
      ensures search == null <==> old(ahead) == []
      ensures search != null ==>
        Valid() && Snapshot() == Pass(old(Snapshot())) && search == old(ahead)[|old(ahead)| - 1]
      ensures search == null ==> Snapshot() == old(Snapshot())
      ensures forall x | x in queue.list :: x in old(queue.list)
      ensures Leaving(at)
    {
      hide Lists.Real, Lists.Total, Lists.Queue.Linked, Lists.Queue.Valid;
      ghost var k := |ahead|;
      search := queue.CrawlQ(pseudo, k);
      if search == null {
        at := if behind == [] then 0 else |queue.list|;
      } else {
        SwapSplit(ahead, pseudo, behind);
        at := k - 1;
        passed := passed + [ahead[k - 1]];
        ahead, behind := ahead[..k - 1], [ahead[k - 1]] + behind;
        assert ahead + behind == old(ahead) + old(behind);
        assert Snapshot() == Pass(old(Snapshot()));
      }
    }

    /** The pseudo item is taken off the queue. */
    method TakeOff(ghost at: nat)
      requires Leaving(at)
      modifies queue, queue.list
      ensures queue.Valid() && queue.list == ahead + behind
    {
      hide Lists.Real, Lists.Total, Lists.Queue.Linked, Lists.Queue.Valid, Lists.Queue.HalfOff;
      queue.UnlinkTail(pseudo, at);
    }

    /** lru_crawler_class_done */
    method ClassDone(ghost at: nat)
      requires on && Leaving(at)
      modifies queue, queue.list, `on, `ahead, `behind
      ensures Valid() && Snapshot() == Done(old(Snapshot()))
    {
      hide Lists.Queue.Valid, Lists.Queue.HalfOff, Without;
      on := false;
      TakeOff(at);
      ahead, behind := [], ahead + behind;
      assert [] + [] + behind == behind && [] + behind == behind;
    }

    /** One round of the crawler thread; the item to evaluate, if there is one. */
    method CrawlRound() returns (search: Lists.Node?)
      requires Valid() && on
      modifies this, queue, queue.list
      ensures Valid() && Snapshot() == Step(old(Snapshot()))
      ensures search != null <==> evaluated == old(evaluated) + 1
      ensures search != null ==> old(ahead) != [] && search == old(ahead)[|old(ahead)| - 1]
    {
      hide Lists.Real, Lists.Total, Lists.Queue.Linked, Lists.Queue.Valid, Valid, Leaving;
      ghost var at;
      search, at := Move();
      var done := search == null;
      if !done && remaining != 0 {
        remaining := remaining - 1;
        done := remaining < 1;
      }
      if done {
        assert forall i | 0 <= i < |queue.list| :: queue.list[i] in old(queue.list);
        ClassDone(at);
        search := null;
      } else {
        evaluated := evaluated + 1;
      }
    }
  }

  lemma DistinctParts<T>(s: seq<T>, a: seq<T>, p: seq<T>, b: seq<T>)
    requires s == a + p + b && Distinct(s)
    ensures Distinct(a + b)
  {
    assert forall i | 0 <= i < |a + b| :: (a + b)[i] == s[if i < |a| then i else i + |p|];
  }

  lemma DropOthers<T>(a: seq<T>, b: seq<T>, x: T)
    ensures forall y | y in Remove(a, x) + Remove(b, x) :: y in a + b
  {
    forall y | y in Remove(a, x) ensures y in a { RemoveOnly(a, x, y); }
    forall y | y in Remove(b, x) ensures y in b { RemoveOnly(b, x, y); }
  }

  /** Taking an item out of the linked queue, seen from the crawler. */
  lemma WithoutAhead(a: seq<Lists.Node>, p: seq<Lists.Node>, b: seq<Lists.Node>, k: nat)
    requires Distinct(a + b) && k < |a|
    ensures Without(a + p + b, k) == Remove(a, a[k]) + p + Remove(b, a[k])
  {
    hide Remove, Distinct;
    Halves(Crawl(a, b, true, 0, [], 0));
    RemoveAt(a, k);
    assert a[k] in a;
    RemoveAbsent(b, a[k]);
    CutAhead(a, p + b, k);
    assert a + p + b == a + (p + b);
    assert (a[..k] + a[k + 1..]) + (p + b) == (a[..k] + a[k + 1..]) + p + b;
  }

  lemma CutAhead<T>(a: seq<T>, b: seq<T>, k: nat)
    requires k < |a|
    ensures (a + b)[..k] + (a + b)[k + 1..] == (a[..k] + a[k + 1..]) + b
  {
    assert (a + b)[..k] == a[..k];
    assert (a + b)[k + 1..] == a[k + 1..] + b;
  }

  lemma CutBehind<T>(a: seq<T>, b: seq<T>, k: nat)
    requires k < |b|
    ensures (a + b)[..|a| + k] + (a + b)[|a| + k + 1..] == a + (b[..k] + b[k + 1..])
  {
    assert (a + b)[..|a| + k] == a + b[..k];
    assert (a + b)[|a| + k + 1..] == b[k + 1..];
  }

  lemma WithoutBehind(a: seq<Lists.Node>, p: seq<Lists.Node>, b: seq<Lists.Node>, k: nat)
    requires Distinct(a + b) && k < |b|
    ensures Without(a + p + b, |a| + |p| + k) == Remove(a, b[k]) + p + Remove(b, b[k])
  {
    hide Remove, Distinct;
    Halves(Crawl(a, b, true, 0, [], 0));
    RemoveAt(b, k);
    assert b[k] in b;
    RemoveAbsent(a, b[k]);
    CutBehind(a + p, b, k);
  }

  /** The place of an item in the linked queue. */
  lemma PlaceOf(a: seq<Lists.Node>, p: seq<Lists.Node>, b: seq<Lists.Node>, x: Lists.Node) returns (k: nat)
    requires Distinct(a + b) && x in a + b
    ensures k < |a + p + b| && (a + p + b)[k] == x
    ensures Without(a + p + b, k) == Remove(a, x) + p + Remove(b, x)
  {
    if x in a {
      k :| 0 <= k < |a| && a[k] == x;
      WithoutAhead(a, p, b, k);
    } else {
      var j :| 0 <= j < |b| && b[j] == x;
      k := |a| + |p| + j;
      WithoutBehind(a, p, b, j);
    }
  }

  lemma SwapSplit(a: seq<Lists.Node>, p: Lists.Node, b: seq<Lists.Node>)
    requires a != []
    ensures var k := |a|; Lists.Swapped(a + [p] + b, k) == a[..k - 1] + [p] + ([a[k - 1]] + b)
    ensures var k := |a|; Without(a[..k - 1] + [p] + ([a[k - 1]] + b), k - 1) == a[..k - 1] + ([a[k - 1]] + b)
  {}
}
