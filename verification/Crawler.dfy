/** The crawler's queue BFS, refined against the ball of pages within a link distance. */
module Crawler {
  import opened Prelude
  import opened Graph

  // ----- URLs (already split; splitting a string and resolving an href are library calls) -----

  datatype Url = Url(scheme: string, netloc: string, path: string, query: string, fragment: string)

  function NormalPath(path: string): string {
    var p := if path == "" then "/" else path;
    if |p| > 1 && p[|p| - 1] == '/' then StripTrailingSlashes(p) else p
  }

  function NormalUrl(u: Url): Url {
    Url(Lower(u.scheme), Lower(u.netloc), NormalPath(u.path), "", "")
  }

  function Origin(u: Url): (string, string) {
    (Lower(u.scheme), Lower(u.netloc))
  }

  predicate SameOrigin(u: Url, base: Url) {
    Origin(u) == Origin(base)
  }

  /** The URL has the base's scheme and host (with its port), in any case of letters. */
  predicate OnHost(u: Url, base: Url) {
    SameIgnoringCase(u.scheme, base.scheme) && SameIgnoringCase(u.netloc, base.netloc)
  }

  lemma OriginMeaning(u: Url, base: Url)
    ensures SameOrigin(u, base) <==> OnHost(u, base)
  {
    LowerIff(u.scheme, base.scheme);
    LowerIff(u.netloc, base.netloc);
  }

  lemma LowerTwice(s: string)
    ensures Lower(Lower(s)) == Lower(s)
  {
  }

  lemma NormalKeepsHost(u: Url, base: Url)
    ensures OnHost(NormalUrl(u), base) <==> OnHost(u, base)
  {
    OriginMeaning(u, base);
    OriginMeaning(NormalUrl(u), base);
    LowerTwice(u.scheme);
    LowerTwice(u.netloc);
  }

  /** The dedup key is stable under normalizing again iff the path is not two or more bare
      slashes: those normalize to an empty path first and to "/" the next time. */
  lemma NormalizeTwice(u: Url)
    ensures OnHost(NormalUrl(u), u)
    ensures NormalUrl(NormalUrl(u)) == NormalUrl(u) <==> !(|u.path| > 1 && AllSlashes(u.path))
  {
    LowerTwice(u.scheme);
    LowerTwice(u.netloc);
    if |u.path| > 1 && u.path[|u.path| - 1] == '/' {
      var r := StripTrailingSlashes(u.path);
      if r == "" {
        assert AllSlashes(u.path);
        assert NormalPath(NormalPath(u.path)) == "/";
      } else {
        assert u.path[|r| - 1] == r[|r| - 1] != '/';
      }
    }
  }

  predicate IsRoot(path: string) { path == "" || path == "/" }

  /** The two paths are one page: both the root, both two or more bare slashes, or equal but
      for slashes at the end. */
  ghost predicate SamePage(p: string, q: string) {
    || (IsRoot(p) && IsRoot(q))
    || (|p| > 1 && AllSlashes(p) && |q| > 1 && AllSlashes(q))
    || exists n :: CommonStem(p, q, n)
  }

  predicate CommonStem(p: string, q: string, n: int) {
    0 < n <= |p| && n <= |q| && p[..n] == q[..n] && p[n - 1] != '/' && AllSlashes(p[n..]) && AllSlashes(q[n..])
  }

  lemma {:induction false} SlashesStripped(s: string)
    requires AllSlashes(s)
    ensures StripTrailingSlashes(s) == ""
  {
    if s != "" { SlashesStripped(s[..|s| - 1]); }
  }

  /** What is left of a path that is more than slashes: all but the slashes at its end. */
  lemma Stem(p: string)
    requires !IsRoot(p) && !AllSlashes(p)
    ensures var r := NormalPath(p);
            0 < |r| <= |p| && r == p[..|r|] && r[|r| - 1] != '/' && AllSlashes(p[|r|..])
  {
    var r := NormalPath(p);
    if p[|p| - 1] == '/' {
      assert |p| > 1 && (r == "" ==> AllSlashes(p));
    } else {
      assert p[..|p|] == p;
    }
  }

  lemma StemBound(p: string, n: nat, m: nat)
    requires n <= |p| && 0 < m <= |p| && AllSlashes(p[n..]) && p[m - 1] != '/'
    ensures m <= n
  {
    forall i | n <= i < |p| ensures p[i] == '/' { assert p[n..][i - n] == p[i]; }
  }

  lemma StemUnique(p: string, n: nat, m: nat)
    requires 0 < n <= |p| && 0 < m <= |p| && p[n - 1] != '/' && p[m - 1] != '/'
    requires AllSlashes(p[n..]) && AllSlashes(p[m..])
    ensures n == m
  {
    StemBound(p, n, m);
    StemBound(p, m, n);
  }

  lemma PathKeyIff(p: string, q: string)
    ensures NormalPath(p) == NormalPath(q) <==> SamePage(p, q)
  {
    if |p| > 1 && AllSlashes(p) { SlashesStripped(p); }
    if |q| > 1 && AllSlashes(q) { SlashesStripped(q); }
    if !IsRoot(p) && !AllSlashes(p) { Stem(p); }
    if !IsRoot(q) && !AllSlashes(q) { Stem(q); }
    if n :| CommonStem(p, q, n) {
      assert p[..n][n - 1] == q[..n][n - 1];
      assert !AllSlashes(p) && !AllSlashes(q);
      StemUnique(p, n, |NormalPath(p)|);
      StemUnique(q, n, |NormalPath(q)|);
    } else if !IsRoot(p) && !AllSlashes(p) && NormalPath(p) == NormalPath(q) {
      assert CommonStem(p, q, |NormalPath(p)|);
    }
  }

  /** Two URLs are crawled as one page iff scheme and host agree in any case of letters and
      the paths are one page; query and fragment do not matter. */
  lemma SameKeyIff(u: Url, v: Url)
    ensures NormalUrl(u) == NormalUrl(v) <==> OnHost(u, v) && SamePage(u.path, v.path)
  {
    LowerIff(u.scheme, v.scheme);
    LowerIff(u.netloc, v.netloc);
    PathKeyIff(u.path, v.path);
  }

  // ----- the site -----

  datatype Snapshot = Snapshot(url: Url, links: seq<string>)

  datatype Config = Config(base: Url, startPath: string, maxPages: int, maxDepth: int, timeBudget: real)

  /** What the outside world answers: fetching a page, resolving an href, reading the clock. */
  datatype World = World(fetch: Url -> Snapshot, resolve: (Url, string) -> Url, clock: nat -> real)

  function Target(w: World, page: Url, href: string): Url {
    NormalUrl(w.resolve(w.fetch(page).url, href))
  }

  function Targets(w: World, page: Url): (r: seq<Url>)
    ensures |r| == |w.fetch(page).links|
    ensures forall i :: 0 <= i < |r| ==> r[i] == Target(w, page, w.fetch(page).links[i])
  {
    seq(|w.fetch(page).links|, i requires 0 <= i < |w.fetch(page).links| => Target(w, page, w.fetch(page).links[i]))
  }

  /** `v` is the key of a link on page `u` that has the base's scheme and host. */
  ghost predicate Links(w: World, base: Url, u: Url, v: Url) {
    exists h :: h in w.fetch(u).links && v == Target(w, u, h) && OnHost(w.resolve(w.fetch(u).url, h), base)
  }

  /** The site as a graph. */
  ghost function Site(w: World, base: Url): (Url, Url) -> bool {
    (u, v) => Links(w, base, u, v)
  }

  function StartOf(w: World, c: Config): Url {
    NormalUrl(w.resolve(c.base, c.startPath))
  }

  function Radius(maxDepth: int): nat { if maxDepth < 0 then 0 else maxDepth }

  // ----- the invariant of the loop -----

  datatype Item = Item(url: Url, depth: nat)

  /** Why the loop ended. */
  datatype Stop = Drained | PageCap | TimeUp

  datatype Outcome = OffOrigin | Crawled(snapshots: seq<Snapshot>)

  ghost predicate QueueOk(g: (Url, Url) -> bool, start: Url, maxDepth: int, queue: seq<Item>) {
    && (forall i :: 0 <= i < |queue| ==>
          queue[i].depth <= Radius(maxDepth) &&
          Within(g, start, queue[i].depth, queue[i].url))
    && (forall i, j :: 0 <= i < j < |queue| ==> queue[i].depth <= queue[j].depth <= queue[i].depth + 1)
  }

  ghost predicate VisitedOk(g: (Url, Url) -> bool, start: Url, maxDepth: int, visited: seq<Item>) {
    && (forall i :: 0 <= i < |visited| ==>
          visited[i].depth <= Radius(maxDepth) &&
          Distance(g, start, visited[i].depth, visited[i].url))
    && (forall i, j :: 0 <= i < j < |visited| ==> visited[i].url != visited[j].url)
    && (forall i, j :: 0 <= i < j < |visited| ==> visited[i].depth <= visited[j].depth)
  }

  ghost predicate Known(visited: seq<Item>, queue: seq<Item>, v: Url, d: int) {
    (exists i :: 0 <= i < |visited| && visited[i].url == v && visited[i].depth <= d) ||
    (exists i :: 0 <= i < |queue| && queue[i].url == v && queue[i].depth <= d)
  }

  /** Every link of an expanded page is visited or queued no deeper than one more. */
  ghost predicate Expanded(g: (Url, Url) -> bool, start: Url, maxDepth: int, visited: seq<Item>, queue: seq<Item>) {
    forall i, v :: 0 <= i < |visited| && visited[i].depth < maxDepth && g(visited[i].url, v) ==>
      Known(visited, queue, v, visited[i].depth + 1)
  }

  ghost predicate Seen(visited: seq<Item>, v: Url, d: int) {
    exists i :: 0 <= i < |visited| && visited[i].url == v && visited[i].depth <= d
  }

  /** Everything closer than the head of the queue has been visited. */
  lemma {:induction false} CloserIsSeen(g: (Url, Url) -> bool, start: Url, maxDepth: int, visited: seq<Item>,
                                        queue: seq<Item>, d: nat, v: Url)
    requires Expanded(g, start, maxDepth, visited, queue)
    requires Known(visited, queue, start, 0)
    requires d <= Radius(maxDepth)
    requires forall i :: 0 <= i < |queue| ==> d < queue[i].depth
    requires Within(g, start, d, v)
    ensures Seen(visited, v, d)
  {
    if d > 0 {
      if Within(g, start, d - 1, v) {
        CloserIsSeen(g, start, maxDepth, visited, queue, d - 1, v);
      } else {
        var u :| Within(g, start, d - 1, u) && g(u, v);
        CloserIsSeen(g, start, maxDepth, visited, queue, d - 1, u);
        var i :| 0 <= i < |visited| && visited[i].url == u && visited[i].depth <= d - 1;
        assert Known(visited, queue, v, visited[i].depth + 1);
      }
    }
  }

  /** A popped page that was already visited is not needed for the invariant. */
  lemma DropSeen(visited: seq<Item>, queue: seq<Item>, v: Url, d: int)
    requires queue != [] && Known(visited, queue, v, d)
    requires Seen(visited, queue[0].url, queue[0].depth)
    ensures Known(visited, queue[1..], v, d)
  {
    if !Seen(visited, v, d) {
      var i :| 0 <= i < |queue| && queue[i].url == v && queue[i].depth <= d;
      if i > 0 { assert queue[1..][i - 1] == queue[i]; }
    }
  }

  /** A popped page that is then visited stays known. */
  lemma MoveToVisited(visited: seq<Item>, queue: seq<Item>, v: Url, d: int)
    requires queue != [] && Known(visited, queue, v, d)
    ensures Known(visited + [queue[0]], queue[1..], v, d)
  {
    var now := visited + [queue[0]];
    if i :| 0 <= i < |visited| && visited[i].url == v && visited[i].depth <= d {
      assert now[i] == visited[i];
    } else {
      var i :| 0 <= i < |queue| && queue[i].url == v && queue[i].depth <= d;
      if i > 0 { assert queue[1..][i - 1] == queue[i]; } else { assert now[|visited|] == queue[0]; }
    }
  }

  lemma QueueGrows(visited: seq<Item>, queue: seq<Item>, more: seq<Item>, v: Url, d: int)
    requires Known(visited, queue, v, d)
    ensures Known(visited, queue + more, v, d)
  {
    if i :| 0 <= i < |queue| && queue[i].url == v && queue[i].depth <= d {
      assert (queue + more)[i] == queue[i];
    }
  }

  ghost predicate LoopInv(g: (Url, Url) -> bool, start: Url, maxDepth: int, visited: seq<Item>, queue: seq<Item>) {
    && VisitedOk(g, start, maxDepth, visited) && QueueOk(g, start, maxDepth, queue)
    && Expanded(g, start, maxDepth, visited, queue)
    && Known(visited, queue, start, 0)
    && (forall i, j :: 0 <= i < |visited| && 0 <= j < |queue| ==> visited[i].depth <= queue[j].depth)
  }

  lemma SkipKeeps(g: (Url, Url) -> bool, start: Url, maxDepth: int, visited: seq<Item>, queue: seq<Item>)
    requires LoopInv(g, start, maxDepth, visited, queue) && queue != []
    requires exists i :: 0 <= i < |visited| && visited[i].url == queue[0].url
    ensures LoopInv(g, start, maxDepth, visited, queue[1..])
  {
    assert Seen(visited, queue[0].url, queue[0].depth);
    DropSeen(visited, queue, start, 0);
    forall i, v | 0 <= i < |visited| && visited[i].depth < maxDepth && g(visited[i].url, v)
      ensures Known(visited, queue[1..], v, visited[i].depth + 1)
    {
      DropSeen(visited, queue, v, visited[i].depth + 1);
    }
  }

  /** The head of the queue, if new, is visited at exactly its link distance. */
  lemma HeadDistance(g: (Url, Url) -> bool, start: Url, maxDepth: int, visited: seq<Item>, queue: seq<Item>)
    requires LoopInv(g, start, maxDepth, visited, queue) && queue != []
    requires forall i :: 0 <= i < |visited| ==> visited[i].url != queue[0].url
    ensures Distance(g, start, queue[0].depth, queue[0].url)
  {
    forall e: nat | e < queue[0].depth ensures !Within(g, start, e, queue[0].url) {
      if Within(g, start, e, queue[0].url) {
        CloserIsSeen(g, start, maxDepth, visited, queue, e, queue[0].url);
        assert false;
      }
    }
  }

  /** `more` holds every on-origin link of `head`'s page that is not visited yet. */
  ghost predicate NewLinks(g: (Url, Url) -> bool, visited: seq<Item>, head: Item, more: seq<Item>) {
    && (forall i :: 0 <= i < |more| ==>
          more[i].depth == head.depth + 1 && g(head.url, more[i].url))
    && (forall v :: g(head.url, v) ==>
          (exists i :: 0 <= i < |visited| && visited[i].url == v) || Item(v, head.depth + 1) in more)
  }

  lemma VisitVisited(g: (Url, Url) -> bool, start: Url, maxDepth: int, visited: seq<Item>, head: Item)
    requires VisitedOk(g, start, maxDepth, visited)
    requires Distance(g, start, head.depth, head.url) && head.depth <= Radius(maxDepth)
    requires forall i :: 0 <= i < |visited| ==> visited[i].url != head.url && visited[i].depth <= head.depth
    ensures VisitedOk(g, start, maxDepth, visited + [head])
  {
  }

  lemma VisitOrder(visited: seq<Item>, queue: seq<Item>, more: seq<Item>)
    requires queue != []
    requires forall i, j :: 0 <= i < |visited| && 0 <= j < |queue| ==> visited[i].depth <= queue[j].depth
    requires forall i, j :: 0 <= i < j < |queue| ==> queue[i].depth <= queue[j].depth
    requires forall i :: 0 <= i < |more| ==> more[i].depth == queue[0].depth + 1
    ensures var l, r := visited + [queue[0]], queue[1..] + more;
            forall i, j :: 0 <= i < |l| && 0 <= j < |r| ==> l[i].depth <= r[j].depth
  {
  }

  lemma VisitQueue(g: (Url, Url) -> bool, start: Url, maxDepth: int, queue: seq<Item>, more: seq<Item>)
    requires QueueOk(g, start, maxDepth, queue) && queue != [] && queue[0].depth < maxDepth
    requires forall i :: 0 <= i < |more| ==> more[i].depth == queue[0].depth + 1 && g(queue[0].url, more[i].url)
    ensures QueueOk(g, start, maxDepth, queue[1..] + more)
  {
    forall i | 0 <= i < |more| ensures Within(g, start, more[i].depth, more[i].url) {
      assert Within(g, start, queue[0].depth, queue[0].url) && g(queue[0].url, more[i].url);
    }
  }

  lemma VisitExpanded(g: (Url, Url) -> bool, start: Url, maxDepth: int, visited: seq<Item>, queue: seq<Item>,
                      more: seq<Item>)
    requires Expanded(g, start, maxDepth, visited, queue) && queue != []
    requires forall i :: 0 <= i < |visited| ==> visited[i].depth <= queue[0].depth
    requires queue[0].depth < maxDepth ==> NewLinks(g, visited + [queue[0]], queue[0], more)
    ensures Expanded(g, start, maxDepth, visited + [queue[0]], queue[1..] + more)
  {
    var head, seen, rest := queue[0], visited + [queue[0]], queue[1..] + more;
    forall i, v | 0 <= i < |seen| && seen[i].depth < maxDepth && g(seen[i].url, v)
      ensures Known(seen, rest, v, seen[i].depth + 1)
    {
      if i < |visited| {
        MoveToVisited(visited, queue, v, seen[i].depth + 1);
        QueueGrows(seen, queue[1..], more, v, seen[i].depth + 1);
      } else if Item(v, head.depth + 1) in more {
        var j :| 0 <= j < |more| && more[j] == Item(v, head.depth + 1);
        assert rest[|queue| - 1 + j] == more[j];
      }
    }
  }

  lemma VisitKeeps(g: (Url, Url) -> bool, start: Url, maxDepth: int, visited: seq<Item>, queue: seq<Item>,
                   more: seq<Item>)
    requires LoopInv(g, start, maxDepth, visited, queue) && queue != []
    requires forall i :: 0 <= i < |visited| ==> visited[i].url != queue[0].url
    requires if queue[0].depth < maxDepth then NewLinks(g, visited + [queue[0]], queue[0], more) else more == []
    ensures LoopInv(g, start, maxDepth, visited + [queue[0]], queue[1..] + more)
  {
    HeadDistance(g, start, maxDepth, visited, queue);
    MoveToVisited(visited, queue, start, 0);
    QueueGrows(visited + [queue[0]], queue[1..], more, start, 0);
    VisitExpanded(g, start, maxDepth, visited, queue, more);
    VisitVisited(g, start, maxDepth, visited, queue[0]);
    VisitOrder(visited, queue, more);
    if queue[0].depth < maxDepth {
      VisitQueue(g, start, maxDepth, queue, more);
    } else {
      assert queue[1..] + more == queue[1..];
    }
  }

  lemma {:induction false} OnOrigin(w: World, base: Url, start: Url, d: nat, v: Url)
    requires OnHost(start, base) && Within(Site(w, base), start, d, v)
    ensures OnHost(v, base)
    decreases d
  {
    if d > 0 {
      if Within(Site(w, base), start, d - 1, v) {
        OnOrigin(w, base, start, d - 1, v);
      } else {
        var u :| Within(Site(w, base), start, d - 1, u) && Links(w, base, u, v);
        var h :| h in w.fetch(u).links && v == Target(w, u, h) && OnHost(w.resolve(w.fetch(u).url, h), base);
        NormalKeepsHost(w.resolve(w.fetch(u).url, h), base);
      }
    }
  }

  // ----- the crawl as a function of what the world answers -----

  /** The loop's state: the queue, the pages fetched in order, the number of the clock reading
      taken before each fetch, and the number of the next reading. */
  datatype Loop = Loop(queue: seq<Item>, visited: seq<Item>, polls: seq<nat>, asked: nat)

  ghost predicate Met(visited: seq<Item>, v: Url) {
    exists i :: 0 <= i < |visited| && visited[i].url == v
  }

  /** The queue entry for a link, unless it is off-origin or has been met. */
  ghost function Entry(c: Config, head: Item, visited: seq<Item>, link: Url): (r: seq<Item>)
    ensures |r| <= 1
  {
    if !Met(visited, link) && SameOrigin(link, c.base) then [Item(link, head.depth + 1)] else []
  }

  /** The queue entries for a page's links, in page order. */
  ghost function NewItems(c: Config, head: Item, visited: seq<Item>, links: seq<Url>): (r: seq<Item>)
    ensures |r| <= |links|
  {
    if links == [] then []
    else
      var n := |links| - 1;
      NewItems(c, head, visited, links[..n]) + Entry(c, head, visited, links[n])
  }

  /** What a freshly fetched page adds to the queue: nothing at the depth cap. */
  ghost function Found(w: World, c: Config, head: Item, visited: seq<Item>): (r: seq<Item>)
    ensures |r| <= |w.fetch(head.url).links|
  {
    if head.depth < c.maxDepth then NewItems(c, head, visited, Targets(w, head.url)) else []
  }

  ghost function SkipStep(s: Loop): Loop
    requires s.queue != []
  {
    s.(queue := s.queue[1..], asked := s.asked + 1)
  }

  ghost function VisitStep(w: World, c: Config, s: Loop): Loop
    requires s.queue != []
  {
    var visited := s.visited + [s.queue[0]];
    Loop(s.queue[1..] + Found(w, c, s.queue[0], visited), visited, s.polls + [s.asked], s.asked + 1)
  }

  ghost function PagesLeft(c: Config, s: Loop): nat {
    if |s.visited| < c.maxPages then c.maxPages - |s.visited| else 0
  }

  /** The loop from a state on: the state it ends in, and why it ends. */
  ghost function CrawlFrom(w: World, c: Config, deadline: real, s: Loop): (Loop, Stop)
    decreases PagesLeft(c, s), |s.queue|
  {
    if s.queue == [] then (s, Drained)
    else if |s.visited| >= c.maxPages then (s, PageCap)
    else if w.clock(s.asked) >= deadline then (s.(asked := s.asked + 1), TimeUp)
    else if Met(s.visited, s.queue[0].url) then CrawlFrom(w, c, deadline, SkipStep(s))
    else CrawlFrom(w, c, deadline, VisitStep(w, c, s))
  }

  function Deadline(w: World, c: Config): real { w.clock(0) + c.timeBudget }

  ghost function Begin(w: World, c: Config): Loop { Loop([Item(StartOf(w, c), 0)], [], [], 1) }

  ghost function Crawl(w: World, c: Config): (Loop, Stop) { CrawlFrom(w, c, Deadline(w, c), Begin(w, c)) }

  // ----- what every state of the loop keeps -----

  lemma {:induction false} NewItemsExact(c: Config, head: Item, visited: seq<Item>, links: seq<Url>)
    ensures forall x :: x in NewItems(c, head, visited, links) <==>
              x.depth == head.depth + 1 && x.url in links && !Met(visited, x.url) && SameOrigin(x.url, c.base)
    decreases |links|
  {
    if links != [] {
      NewItemsExact(c, head, visited, links[..|links| - 1]);
      assert links == links[..|links| - 1] + [links[|links| - 1]];
    }
  }

  lemma TargetsAreLinks(w: World, base: Url, u: Url, v: Url)
    ensures Links(w, base, u, v) <==> SameOrigin(v, base) && v in Targets(w, u)
  {
    var links := w.fetch(u).links;
    OriginMeaning(v, base);
    if v in Targets(w, u) {
      var i :| 0 <= i < |links| && Targets(w, u)[i] == v;
      NormalKeepsHost(w.resolve(w.fetch(u).url, links[i]), base);
      assert links[i] in links;
    }
    if h :| h in links && v == Target(w, u, h) && OnHost(w.resolve(w.fetch(u).url, h), base) {
      var i :| 0 <= i < |links| && links[i] == h;
      assert Targets(w, u)[i] == v;
      NormalKeepsHost(w.resolve(w.fetch(u).url, h), base);
    }
  }

  lemma FoundIsNew(w: World, c: Config, head: Item, visited: seq<Item>)
    ensures if head.depth < c.maxDepth then NewLinks(Site(w, c.base), visited, head, Found(w, c, head, visited))
            else Found(w, c, head, visited) == []
  {
    if head.depth < c.maxDepth {
      var more := Found(w, c, head, visited);
      NewItemsExact(c, head, visited, Targets(w, head.url));
      forall i | 0 <= i < |more| ensures more[i].depth == head.depth + 1 && Site(w, c.base)(head.url, more[i].url) {
        assert more[i] in more;
        TargetsAreLinks(w, c.base, head.url, more[i].url);
      }
      forall v | Site(w, c.base)(head.url, v) ensures Met(visited, v) || Item(v, head.depth + 1) in more {
        TargetsAreLinks(w, c.base, head.url, v);
      }
    }
  }

  /** No page is fetched before every page closer to the start. */
  ghost predicate BreadthFirst(g: (Url, Url) -> bool, start: Url, visited: seq<Item>) {
    forall i, d: nat, v :: 0 <= i < |visited| && d < visited[i].depth && Within(g, start, d, v) ==>
      Seen(visited[..i], v, d)
  }

  lemma VisitBreadthFirst(g: (Url, Url) -> bool, start: Url, maxDepth: int, visited: seq<Item>, queue: seq<Item>)
    requires LoopInv(g, start, maxDepth, visited, queue) && queue != [] && BreadthFirst(g, start, visited)
    ensures BreadthFirst(g, start, visited + [queue[0]])
  {
    var now := visited + [queue[0]];
    forall i, d: nat, v | 0 <= i < |now| && d < now[i].depth && Within(g, start, d, v) ensures Seen(now[..i], v, d) {
      if i < |visited| {
        assert now[..i] == visited[..i];
      } else {
        assert now[..i] == visited;
        CloserIsSeen(g, start, maxDepth, visited, queue, d, v);
      }
    }
  }

  /** How many links the fetched pages have in all. */
  function LinkCount(w: World, visited: seq<Item>): nat {
    if visited == [] then 0
    else LinkCount(w, visited[..|visited| - 1]) + |w.fetch(visited[|visited| - 1].url).links|
  }

  /** The clock readings before `asked`: all before the deadline, one of them just before each
      fetch, and no more of them than queue entries there have been. */
  ghost predicate ReadingsOk(w: World, deadline: real, s: Loop) {
    && s.asked > 0
    && (forall n: nat :: 0 < n < s.asked ==> w.clock(n) < deadline)
    && |s.polls| == |s.visited|
    && (forall i :: 0 <= i < |s.polls| ==> 0 < s.polls[i] < s.asked)
    && (forall i, j :: 0 <= i < j < |s.polls| ==> s.polls[i] < s.polls[j])
    && s.asked + |s.queue| <= 2 + LinkCount(w, s.visited)
  }

  ghost predicate StateOk(w: World, c: Config, deadline: real, s: Loop) {
    && LoopInv(Site(w, c.base), StartOf(w, c), c.maxDepth, s.visited, s.queue)
    && BreadthFirst(Site(w, c.base), StartOf(w, c), s.visited)
    && ReadingsOk(w, deadline, s)
    && |s.visited| <= (if c.maxPages < 0 then 0 else c.maxPages)
  }

  lemma BeginOk(w: World, c: Config)
    ensures StateOk(w, c, Deadline(w, c), Begin(w, c))
  {
    assert Begin(w, c).queue[0].url == StartOf(w, c);
  }

  lemma SkipOk(w: World, c: Config, deadline: real, s: Loop)
    requires StateOk(w, c, deadline, s) && s.queue != [] && w.clock(s.asked) < deadline
    requires Met(s.visited, s.queue[0].url)
    ensures StateOk(w, c, deadline, SkipStep(s))
  {
    SkipKeeps(Site(w, c.base), StartOf(w, c), c.maxDepth, s.visited, s.queue);
  }

  lemma VisitReadings(w: World, c: Config, deadline: real, s: Loop)
    requires ReadingsOk(w, deadline, s) && s.queue != [] && w.clock(s.asked) < deadline
    ensures ReadingsOk(w, deadline, VisitStep(w, c, s))
  {
    var visited := s.visited + [s.queue[0]];
    assert visited[..|s.visited|] == s.visited;
    assert LinkCount(w, visited) == LinkCount(w, s.visited) + |w.fetch(s.queue[0].url).links|;
  }

  lemma VisitOk(w: World, c: Config, deadline: real, s: Loop)
    requires StateOk(w, c, deadline, s) && s.queue != [] && w.clock(s.asked) < deadline
    requires !Met(s.visited, s.queue[0].url) && |s.visited| < c.maxPages
    ensures StateOk(w, c, deadline, VisitStep(w, c, s))
  {
    var g, start, visited := Site(w, c.base), StartOf(w, c), s.visited + [s.queue[0]];
    FoundIsNew(w, c, s.queue[0], visited);
    VisitKeeps(g, start, c.maxDepth, s.visited, s.queue, Found(w, c, s.queue[0], visited));
    VisitBreadthFirst(g, start, c.maxDepth, s.visited, s.queue);
    VisitReadings(w, c, deadline, s);
  }

  /** Why the loop ended: enough pages, a last clock reading past the deadline (and then all
      earlier ones are before it), or a queue run dry. */
  ghost predicate EndOk(w: World, c: Config, deadline: real, s: Loop, stop: Stop) {
    match stop
    case PageCap => |s.visited| >= c.maxPages && StateOk(w, c, deadline, s)
    case TimeUp =>
      s.asked > 1 && w.clock(s.asked - 1) >= deadline &&
      s.queue != [] && StateOk(w, c, deadline, s.(asked := s.asked - 1))
    case Drained => s.queue == [] && StateOk(w, c, deadline, s)
  }

  lemma {:induction false} CrawlEndsOk(w: World, c: Config, deadline: real, s: Loop)
    requires StateOk(w, c, deadline, s)
    ensures var (t, stop) := CrawlFrom(w, c, deadline, s); EndOk(w, c, deadline, t, stop)
    decreases PagesLeft(c, s), |s.queue|
  {
    if s.queue != [] && |s.visited| < c.maxPages {
      if w.clock(s.asked) >= deadline {
        assert s.(asked := s.asked + 1).(asked := s.asked) == s;
      } else if Met(s.visited, s.queue[0].url) {
        SkipOk(w, c, deadline, s);
        CrawlEndsOk(w, c, deadline, SkipStep(s));
      } else {
        VisitOk(w, c, deadline, s);
        CrawlEndsOk(w, c, deadline, VisitStep(w, c, s));
      }
    }
  }

  lemma BallIsSeen(g: (Url, Url) -> bool, start: Url, maxDepth: int, visited: seq<Item>)
    requires LoopInv(g, start, maxDepth, visited, [])
    ensures forall v :: Within(g, start, Radius(maxDepth), v) ==> Seen(visited, v, Radius(maxDepth))
  {
    forall v | Within(g, start, Radius(maxDepth), v) ensures Seen(visited, v, Radius(maxDepth)) {
      CloserIsSeen(g, start, maxDepth, visited, [], Radius(maxDepth), v);
    }
  }

  lemma VisitedOnOrigin(w: World, c: Config, visited: seq<Item>)
    requires OnHost(StartOf(w, c), c.base)
    requires VisitedOk(Site(w, c.base), StartOf(w, c), c.maxDepth, visited)
    ensures forall i :: 0 <= i < |visited| ==> OnHost(visited[i].url, c.base)
  {
    forall i | 0 <= i < |visited| ensures OnHost(visited[i].url, c.base) {
      OnOrigin(w, c.base, StartOf(w, c), visited[i].depth, visited[i].url);
    }
  }

  /** What a crawl from an on-origin start fetched: at most `max_pages` distinct pages with the
      base's scheme and host, within `max_depth`, each at its exact link distance, nearest first. */
  ghost predicate PagesOk(w: World, c: Config, visited: seq<Item>) {
    && |visited| <= (if c.maxPages < 0 then 0 else c.maxPages)
    && VisitedOk(Site(w, c.base), StartOf(w, c), c.maxDepth, visited)
    && BreadthFirst(Site(w, c.base), StartOf(w, c), visited)
    && forall i :: 0 <= i < |visited| ==> OnHost(visited[i].url, c.base)
  }

  /** Every page of the ball has been fetched. */
  ghost predicate BallFetched(w: World, c: Config, visited: seq<Item>) {
    forall v :: Within(Site(w, c.base), StartOf(w, c), Radius(c.maxDepth), v) ==> Seen(visited, v, Radius(c.maxDepth))
  }

  /** When the clock was read: before the deadline each time, but for a last reading that
      stops the crawl; once just before each fetch; and at most two times more often than
      there are links on the fetched pages. */
  ghost predicate TimingOk(w: World, c: Config, s: Loop, stop: Stop) {
    && s.asked <= 2 + LinkCount(w, s.visited)
    && (forall n: nat :: 0 < n < s.asked && (stop == TimeUp ==> n < s.asked - 1) ==> w.clock(n) < Deadline(w, c))
    && (stop == TimeUp ==> s.asked > 1 && w.clock(s.asked - 1) >= Deadline(w, c))
    && |s.polls| == |s.visited|
    && (forall i :: 0 <= i < |s.polls| ==> 0 < s.polls[i] < s.asked && w.clock(s.polls[i]) < Deadline(w, c))
    && (forall i, j :: 0 <= i < j < |s.polls| ==> s.polls[i] < s.polls[j])
  }

  lemma EndTiming(w: World, c: Config, s: Loop, stop: Stop)
    requires EndOk(w, c, Deadline(w, c), s, stop)
    ensures TimingOk(w, c, s, stop)
  {
  }

  lemma EndPages(w: World, c: Config, s: Loop, stop: Stop)
    requires OnHost(StartOf(w, c), c.base) && EndOk(w, c, Deadline(w, c), s, stop)
    ensures PagesOk(w, c, s.visited)
    ensures stop == Drained ==> BallFetched(w, c, s.visited)
  {
    VisitedOnOrigin(w, c, s.visited);
    if stop == Drained { BallIsSeen(Site(w, c.base), StartOf(w, c), c.maxDepth, s.visited); }
  }

  /** The first page fetched is the one the base and the start path resolve to. */
  ghost predicate StartIsFirst(w: World, c: Config, visited: seq<Item>) {
    var start := w.resolve(c.base, c.startPath);
    visited != [] ==>
      && visited[0].depth == 0 && OnHost(visited[0].url, start)
      && if |start.path| > 1 && AllSlashes(start.path) then visited[0].url.path == ""
         else SamePage(visited[0].url.path, start.path)
  }

  lemma FirstPage(w: World, c: Config, visited: seq<Item>)
    requires PagesOk(w, c, visited)
    ensures StartIsFirst(w, c, visited)
  {
    if visited != [] {
      var start, s := w.resolve(c.base, c.startPath), StartOf(w, c);
      assert Within(Site(w, c.base), s, 0, s);
      var before := visited[..0];
      assert !Seen(before, s, 0);
      assert visited[0].depth == 0 && visited[0].url == s;
      NormalizeTwice(start);
      SameKeyIff(s, start);
      if |start.path| > 1 && AllSlashes(start.path) { SlashesStripped(start.path); }
    }
  }

  /** The crawl stops for one of three reasons: the ball is fetched, or `max_pages` are held,
      or the last clock reading it took, and no earlier one, is past the deadline. */
  ghost predicate CrawlOk(w: World, c: Config, s: Loop, stop: Stop) {
    && PagesOk(w, c, s.visited)
    && TimingOk(w, c, s, stop)
    && (stop == Drained ==> BallFetched(w, c, s.visited))
    && (stop == PageCap ==> |s.visited| >= c.maxPages)
  }

  lemma CrawlMeaning(w: World, c: Config)
    requires OnHost(StartOf(w, c), c.base)
    ensures CrawlOk(w, c, Crawl(w, c).0, Crawl(w, c).1) && StartIsFirst(w, c, Crawl(w, c).0.visited)
  {
    var (s, stop) := Crawl(w, c);
    BeginOk(w, c);
    CrawlEndsOk(w, c, Deadline(w, c), Begin(w, c));
    EndTiming(w, c, s, stop);
    EndPages(w, c, s, stop);
    FirstPage(w, c, s.visited);
  }

  /** If no reading the crawl can take is past the deadline, only the page cap can keep it from
      fetching the whole ball. */
  lemma InTimeFetchesTheBall(w: World, c: Config)
    requires OnHost(StartOf(w, c), c.base)
    requires forall n: nat :: 0 < n <= 1 + LinkCount(w, Crawl(w, c).0.visited) ==> w.clock(n) < Deadline(w, c)
    ensures var s := Crawl(w, c).0; |s.visited| >= c.maxPages || BallFetched(w, c, s.visited)
  {
    CrawlMeaning(w, c);
  }

  // ----- the program -----

  ghost predicate VisitedSet(seen: set<Url>, visited: seq<Item>) {
    forall v :: v in seen <==> Met(visited, v)
  }

  lemma VisitSet(seen: set<Url>, visited: seq<Item>, head: Item)
    requires VisitedSet(seen, visited)
    ensures VisitedSet(seen + {head.url}, visited + [head])
  {
    var now := visited + [head];
    assert now[|visited|] == head;
    forall v | v in seen ensures Met(now, v) {
      var i :| 0 <= i < |visited| && visited[i].url == v;
      assert now[i] == visited[i];
    }
  }

  lemma OneMoreLink(c: Config, head: Item, visited: seq<Item>, links: seq<Url>, n: nat, queue: seq<Item>)
    requires n < |links|
    ensures queue + NewItems(c, head, visited, links[..n + 1]) ==
            queue + NewItems(c, head, visited, links[..n]) + Entry(c, head, visited, links[n])
  {
    assert links[..n + 1][..n] == links[..n];
  }

  /** Queue one link. */
  method Offer(c: Config, head: Item, link: Url, queue: seq<Item>, seen: set<Url>, ghost visited: seq<Item>)
    returns (r: seq<Item>)
    requires VisitedSet(seen, visited)
    ensures r == queue + Entry(c, head, visited, link)
  {
    r := queue;
    if link !in seen && SameOrigin(link, c.base) {
      r := r + [Item(link, head.depth + 1)];
    }
  }

  /** The inner loop: queue the page's links. */
  method Enqueue(w: World, c: Config, head: Item, queue: seq<Item>, seen: set<Url>, ghost visited: seq<Item>)
    returns (r: seq<Item>)
    requires VisitedSet(seen, visited)
    ensures r == queue + NewItems(c, head, visited, Targets(w, head.url))
  {
    var snapshot := w.fetch(head.url);
    ghost var links := Targets(w, head.url);
    r := queue;
    for n := 0 to |snapshot.links|
      invariant r == queue + NewItems(c, head, visited, links[..n])
    {
      OneMoreLink(c, head, visited, links, n, queue);
      r := Offer(c, head, Target(w, head.url, snapshot.links[n]), r, seen, visited);
    }
    assert links[..|links|] == links;
  }

  /** Links are followed above the depth cap only. */
  method Expand(w: World, c: Config, head: Item, queue: seq<Item>, seen: set<Url>, ghost visited: seq<Item>)
    returns (r: seq<Item>)
    requires VisitedSet(seen, visited)
    ensures r == queue + Found(w, c, head, visited)
  {
    r := queue;
    if head.depth < c.maxDepth {
      r := Enqueue(w, c, head, queue, seen, visited);
    }
  }

  ghost function Snapshots(w: World, visited: seq<Item>): seq<Snapshot> {
    seq(|visited|, i requires 0 <= i < |visited| => w.fetch(visited[i].url))
  }

  /** The loop: it ends as the crawl does, with its pages' snapshots. */
  method CrawlPages(w: World, c: Config, start: Url, deadline: real) returns (snapshots: seq<Snapshot>)
    requires start == StartOf(w, c) && deadline == Deadline(w, c)
    ensures snapshots == Snapshots(w, Crawl(w, c).0.visited)
  {
    var asked := 1;
    var queue := [Item(start, 0)];
    var seen: set<Url> := {};
    snapshots := [];
    ghost var s := Begin(w, c);
    while queue != [] && |snapshots| < c.maxPages
      invariant s.queue == queue && s.asked == asked && VisitedSet(seen, s.visited)
      invariant snapshots == Snapshots(w, s.visited)
      invariant CrawlFrom(w, c, deadline, s) == Crawl(w, c)
      decreases PagesLeft(c, s), |queue|
    {
      var now := w.clock(asked);
      asked := asked + 1;
      if now >= deadline {
        return;
      }
      var head := queue[0];
      queue := queue[1..];
      if head.url in seen {
        s := SkipStep(s);
        continue;
      }
      VisitSet(seen, s.visited, head);
      seen := seen + {head.url};
      snapshots := snapshots + [w.fetch(head.url)];
      queue := Expand(w, c, head, queue, seen, s.visited + [head]);
      s := VisitStep(w, c, s);
    }
  }

  /** The snapshots returned are those of the crawl's pages, in the order fetched. */
  method Discover(w: World, c: Config) returns (r: Outcome)
    ensures r == if OnHost(w.resolve(c.base, c.startPath), c.base)
                 then Crawled(Snapshots(w, Crawl(w, c).0.visited)) else OffOrigin
    ensures r.Crawled? ==>
              CrawlOk(w, c, Crawl(w, c).0, Crawl(w, c).1) && StartIsFirst(w, c, Crawl(w, c).0.visited)
  {
    var start := NormalUrl(w.resolve(c.base, c.startPath));
    OriginMeaning(start, c.base);
    NormalKeepsHost(w.resolve(c.base, c.startPath), c.base);
    if !SameOrigin(start, c.base) {
      return OffOrigin;
    }
    var snapshots := CrawlPages(w, c, start, w.clock(0) + c.timeBudget);
    CrawlMeaning(w, c);
    r := Crawled(snapshots);
  }
}
