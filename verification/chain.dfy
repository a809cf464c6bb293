/** The article-chain finder: a bidirectional, depth-limited search that
    grows a table of paths from the start title over outgoing links and
    one from the end title over backlinks, round by round with a growing
    depth limit, and splices the two paths at a title both tables hold.
    The two link lookups are pure functions of the title. */
module Chain {
  import opened Wrappers

  type Title = string

  /** A link lookup: the titles one title links to (or is linked from). */
  type Links = Title -> seq<Title>

  /** The deepest round, and so the depth limit of the last round. */
  const MaxDepth: nat := 3

  /** How a search treats a link whose title already has a path.
      `FirstVisitOnly` is the code as written: such a link is skipped.
      `EveryLink` still descends through it, recording nothing new for it,
      which is what a deepening round needs to get past the titles found
      by the round before. */
  datatype Descent = FirstVisitOnly | EveryLink

  /** One direction's tables: the recorded path of every title found, the
      links fetched so far, and the titles whose links were fetched, in
      the order of the lookups. */
  datatype Tables = Tables(visited: map<Title, seq<Title>>, cache: map<Title, seq<Title>>, fetched: seq<Title>)

  /** The tables before the first round: only the root, with itself as
      its path. */
  function Init(root: Title): (t: Tables)
    ensures t.visited.Keys == {root} && t.visited[root] == [root]
    ensures t.cache == map[] && t.fetched == []
  {
    Tables(map[root := [root]], map[], [])
  }

  /** The links of `title`, from the cache when it holds them and from the
      lookup otherwise, in which case the cache records them. */
  function Fetch(links: Links, title: Title, t: Tables): (seq<Title>, Tables)
  {
    if title in t.cache then (t.cache[title], t)
    else (links(title), t.(cache := t.cache[title := links(title)], fetched := t.fetched + [title]))
  }

  /** `_dfs`: below the depth limit, walk the links of `title` in order. */
  function Dfs(links: Links, mode: Descent, title: Title, maxDepth: int, depth: int, path: seq<Title>, t: Tables): Tables
    decreases maxDepth - depth, 1, 0
  {
    if depth >= maxDepth then t
    else
      var f := Fetch(links, title, t);
      Scan(links, mode, f.0, maxDepth, depth, path, f.1)
  }

  /** The loop of `_dfs` over the links `ls` of the title at the end of
      `path`: a title seen for the first time gets `path` plus itself as
      its path; the search descends into it, and, under `EveryLink`, into
      a title seen before as well. */
  function Scan(links: Links, mode: Descent, ls: seq<Title>, maxDepth: int, depth: int, path: seq<Title>, t: Tables): Tables
    requires depth < maxDepth
    decreases maxDepth - depth, 0, |ls|
  {
    if ls == [] then t
    else
      var link := ls[0];
      var newPath := path + [link];
      var isNew := link !in t.visited;
      var t1 := if isNew then t.(visited := t.visited[link := newPath]) else t;
      var t2 := if isNew || mode == EveryLink then Dfs(links, mode, link, maxDepth, depth + 1, newPath, t1) else t1;
      Scan(links, mode, ls[1..], maxDepth, depth, path, t2)
  }

  // ---------------------------------------------------------------------
  // Bookkeeping: nothing is overwritten, the cache agrees with the lookup
  // and each title is looked up at most once.

  /** `b` keeps every entry of `a`. */
  predicate Keeps(a: map<Title, seq<Title>>, b: map<Title, seq<Title>>)
  {
    forall k | k in a :: k in b && b[k] == a[k]
  }

  /** Every cached entry is what the lookup returns. */
  ghost predicate CacheOk(links: Links, cache: map<Title, seq<Title>>)
  {
    forall k | k in cache :: cache[k] == links(k)
  }

  predicate NoRepeats(s: seq<Title>)
  {
    forall i, j | 0 <= i < j < |s| :: s[i] != s[j]
  }

  /** The lookup log names each cached title once and nothing else. */
  predicate LogOk(t: Tables)
  {
    NoRepeats(t.fetched) && t.cache.Keys == set k | k in t.fetched
  }

  /** `r` grows `t`: no path, cache entry or logged lookup is lost or
      changed. */
  predicate Grows(t: Tables, r: Tables)
  {
    Keeps(t.visited, r.visited) && Keeps(t.cache, r.cache) && t.fetched <= r.fetched
  }

  lemma GrowsTrans(a: Tables, b: Tables, c: Tables)
    requires Grows(a, b) && Grows(b, c)
    ensures Grows(a, c)
  {
  }

  /** A lookup returns the title's links and keeps the cache honest. */
  lemma FetchOk(links: Links, title: Title, t: Tables)
    requires CacheOk(links, t.cache)
    ensures var f := Fetch(links, title, t);
      && f.0 == links(title) && CacheOk(links, f.1.cache) && Grows(t, f.1)
      && f.1.visited == t.visited && title in f.1.cache
  {
  }

  /** A lookup keeps the log free of repeats. */
  lemma FetchLog(links: Links, title: Title, t: Tables)
    requires LogOk(t)
    ensures LogOk(Fetch(links, title, t).1)
  {
    if title !in t.cache {
      var s := t.fetched + [title];
      forall i, j | 0 <= i < j < |s|
        ensures s[i] != s[j]
      {
        if j == |t.fetched| {
          assert s[i] == t.fetched[i];
        }
      }
    }
  }

  /** `_dfs` overwrites no path and no cache entry, and the cache keeps
      agreeing with the lookup. */
  lemma {:induction false} DfsGrows(links: Links, mode: Descent, title: Title, maxDepth: int, depth: int, path: seq<Title>, t: Tables)
    requires CacheOk(links, t.cache)
    ensures var r := Dfs(links, mode, title, maxDepth, depth, path, t);
      Grows(t, r) && CacheOk(links, r.cache)
    decreases maxDepth - depth, 1, 0
  {
    if depth < maxDepth {
      var f := Fetch(links, title, t);
      FetchOk(links, title, t);
      ScanGrows(links, mode, f.0, maxDepth, depth, path, f.1);
      GrowsTrans(t, f.1, Dfs(links, mode, title, maxDepth, depth, path, t));
    }
  }

  lemma {:induction false} ScanGrows(links: Links, mode: Descent, ls: seq<Title>, maxDepth: int, depth: int, path: seq<Title>, t: Tables)
    requires depth < maxDepth && CacheOk(links, t.cache)
    ensures var r := Scan(links, mode, ls, maxDepth, depth, path, t);
      Grows(t, r) && CacheOk(links, r.cache)
    decreases maxDepth - depth, 0, |ls|
  {
    if ls != [] {
      var link := ls[0];
      var newPath := path + [link];
      var isNew := link !in t.visited;
      var t1 := if isNew then t.(visited := t.visited[link := newPath]) else t;
      assert Grows(t, t1);
      var t2 := if isNew || mode == EveryLink then Dfs(links, mode, link, maxDepth, depth + 1, newPath, t1) else t1;
      if isNew || mode == EveryLink {
        DfsGrows(links, mode, link, maxDepth, depth + 1, newPath, t1);
      }
      GrowsTrans(t, t1, t2);
      ScanGrows(links, mode, ls[1..], maxDepth, depth, path, t2);
      GrowsTrans(t, t2, Scan(links, mode, ls, maxDepth, depth, path, t));
    }
  }

  /** Each title is looked up at most once: the log never repeats a title
      and names exactly the cached ones. */
  lemma {:induction false} DfsLog(links: Links, mode: Descent, title: Title, maxDepth: int, depth: int, path: seq<Title>, t: Tables)
    requires LogOk(t)
    ensures LogOk(Dfs(links, mode, title, maxDepth, depth, path, t))
    decreases maxDepth - depth, 1, 0
  {
    if depth < maxDepth {
      var f := Fetch(links, title, t);
      FetchLog(links, title, t);
      ScanLog(links, mode, f.0, maxDepth, depth, path, f.1);
    }
  }

  lemma {:induction false} ScanLog(links: Links, mode: Descent, ls: seq<Title>, maxDepth: int, depth: int, path: seq<Title>, t: Tables)
    requires depth < maxDepth && LogOk(t)
    ensures LogOk(Scan(links, mode, ls, maxDepth, depth, path, t))
    decreases maxDepth - depth, 0, |ls|
  {
    if ls != [] {
      var link := ls[0];
      var newPath := path + [link];
      var isNew := link !in t.visited;
      var t1 := if isNew then t.(visited := t.visited[link := newPath]) else t;
      var t2 := if isNew || mode == EveryLink then Dfs(links, mode, link, maxDepth, depth + 1, newPath, t1) else t1;
      if isNew || mode == EveryLink {
        DfsLog(links, mode, link, maxDepth, depth + 1, newPath, t1);
      }
      ScanLog(links, mode, ls[1..], maxDepth, depth, path, t2);
    }
  }

  // ---------------------------------------------------------------------
  // Soundness: every recorded path is a walk from the root to its title,
  // no longer than the depth limit allows.

  /** Each title of `p` links to the next. */
  ghost predicate IsWalk(links: Links, p: seq<Title>)
  {
    forall i | 0 <= i < |p| - 1 :: p[i + 1] in links(p[i])
  }

  /** `p` is a walk of at most `maxLen` titles from `root` to `k`. */
  ghost predicate PathOk(links: Links, root: Title, maxLen: int, p: seq<Title>, k: Title)
  {
    1 <= |p| <= maxLen && p[0] == root && p[|p| - 1] == k && IsWalk(links, p)
  }

  /** Every recorded path is a walk from `root` to its title. */
  ghost predicate VisitedOk(links: Links, root: Title, maxLen: int, visited: map<Title, seq<Title>>)
  {
    forall k | k in visited :: PathOk(links, root, maxLen, visited[k], k)
  }

  lemma WalkExtend(links: Links, p: seq<Title>, l: Title)
    requires |p| >= 1 && IsWalk(links, p) && l in links(p[|p| - 1])
    ensures IsWalk(links, p + [l])
  {
    var q := p + [l];
    forall i | 0 <= i < |q| - 1
      ensures q[i + 1] in links(q[i])
    {
      if i < |p| - 1 {
        assert q[i] == p[i] && q[i + 1] == p[i + 1];
      }
    }
  }

  /** `_dfs` records only walks from the root to their title, each at
      most one title longer than the depth limit. */
  lemma {:induction false} DfsSound(links: Links, mode: Descent, root: Title, title: Title, maxDepth: int, depth: int, path: seq<Title>, t: Tables)
    requires CacheOk(links, t.cache) && VisitedOk(links, root, maxDepth + 1, t.visited)
    requires PathOk(links, root, depth + 1, path, title)
    ensures VisitedOk(links, root, maxDepth + 1, Dfs(links, mode, title, maxDepth, depth, path, t).visited)
    decreases maxDepth - depth, 1, 0
  {
    if depth < maxDepth {
      var f := Fetch(links, title, t);
      FetchOk(links, title, t);
      ScanSound(links, mode, root, f.0, maxDepth, depth, path, f.1);
    }
  }

  lemma {:induction false} ScanSound(links: Links, mode: Descent, root: Title, ls: seq<Title>, maxDepth: int, depth: int, path: seq<Title>, t: Tables)
    requires depth < maxDepth && CacheOk(links, t.cache) && VisitedOk(links, root, maxDepth + 1, t.visited)
    requires |path| >= 1 && PathOk(links, root, depth + 1, path, path[|path| - 1])
    requires forall l | l in ls :: l in links(path[|path| - 1])
    ensures VisitedOk(links, root, maxDepth + 1, Scan(links, mode, ls, maxDepth, depth, path, t).visited)
    decreases maxDepth - depth, 0, |ls|
  {
    if ls != [] {
      var link := ls[0];
      var newPath := path + [link];
      assert link in ls;
      WalkExtend(links, path, link);
      assert PathOk(links, root, depth + 2, newPath, link);
      var isNew := link !in t.visited;
      var t1 := if isNew then t.(visited := t.visited[link := newPath]) else t;
      assert VisitedOk(links, root, maxDepth + 1, t1.visited);
      var t2 := if isNew || mode == EveryLink then Dfs(links, mode, link, maxDepth, depth + 1, newPath, t1) else t1;
      if isNew || mode == EveryLink {
        DfsSound(links, mode, root, link, maxDepth, depth + 1, newPath, t1);
        DfsGrows(links, mode, link, maxDepth, depth + 1, newPath, t1);
      }
      assert forall l | l in ls[1..] :: l in ls;
      ScanSound(links, mode, root, ls[1..], maxDepth, depth, path, t2);
    }
  }

  // ---------------------------------------------------------------------
  // Completeness of a round that descends through every link.

  /** `x` is at most `n` links away from `a`. */
  ghost predicate Within(links: Links, a: Title, x: Title, n: nat)
    decreases n
  {
    a == x || (n > 0 && exists y | y in links(a) :: Within(links, y, x, n - 1))
  }

  /** Under `EveryLink`, a search from a recorded title records every
      title at most as many links away as the depth left. */
  lemma {:induction false} DfsComplete(links: Links, title: Title, maxDepth: int, depth: int, path: seq<Title>, t: Tables)
    requires 0 <= depth <= maxDepth && CacheOk(links, t.cache) && title in t.visited
    ensures forall x | Within(links, title, x, maxDepth - depth) ::
      x in Dfs(links, EveryLink, title, maxDepth, depth, path, t).visited
    decreases maxDepth - depth, 1, 0
  {
    var r := Dfs(links, EveryLink, title, maxDepth, depth, path, t);
    if depth < maxDepth {
      var f := Fetch(links, title, t);
      FetchOk(links, title, t);
      ScanComplete(links, f.0, maxDepth, depth, path, f.1);
      ScanGrows(links, EveryLink, f.0, maxDepth, depth, path, f.1);
      forall x | Within(links, title, x, maxDepth - depth)
        ensures x in r.visited
      {
        if x != title {
          var y :| y in links(title) && Within(links, y, x, maxDepth - depth - 1);
        }
      }
    }
  }

  lemma {:induction false} ScanComplete(links: Links, ls: seq<Title>, maxDepth: int, depth: int, path: seq<Title>, t: Tables)
    requires 0 <= depth < maxDepth && CacheOk(links, t.cache)
    ensures var r := Scan(links, EveryLink, ls, maxDepth, depth, path, t);
      forall l, x | l in ls && Within(links, l, x, maxDepth - depth - 1) :: x in r.visited
    decreases maxDepth - depth, 0, |ls|
  {
    if ls != [] {
      var r := Scan(links, EveryLink, ls, maxDepth, depth, path, t);
      var link := ls[0];
      var newPath := path + [link];
      var t1 := if link !in t.visited then t.(visited := t.visited[link := newPath]) else t;
      var t2 := Dfs(links, EveryLink, link, maxDepth, depth + 1, newPath, t1);
      DfsComplete(links, link, maxDepth, depth + 1, newPath, t1);
      DfsGrows(links, EveryLink, link, maxDepth, depth + 1, newPath, t1);
      ScanComplete(links, ls[1..], maxDepth, depth, path, t2);
      ScanGrows(links, EveryLink, ls[1..], maxDepth, depth, path, t2);
      forall l, x | l in ls && Within(links, l, x, maxDepth - depth - 1)
        ensures x in r.visited
      {
        if l != link {
          assert l in ls[1..];
        }
      }
    }
  }

  // ---------------------------------------------------------------------
  // What a round adds when it skips recorded titles.

  /** A round at its last level records exactly the new links. */
  lemma {:induction false} ScanShallow(links: Links, mode: Descent, ls: seq<Title>, maxDepth: int, depth: int, path: seq<Title>, t: Tables)
    requires depth + 1 == maxDepth
    ensures Scan(links, mode, ls, maxDepth, depth, path, t).visited.Keys == t.visited.Keys + (set l | l in ls)
    decreases |ls|
  {
    if ls != [] {
      var link := ls[0];
      var t1 := if link !in t.visited then t.(visited := t.visited[link := path + [link]]) else t;
      ScanShallow(links, mode, ls[1..], maxDepth, depth, path, t1);
      assert (set l | l in ls) == {link} + (set l | l in ls[1..]);
    }
  }

  /** Skipping recorded titles, a round whose links are all recorded
      changes nothing. */
  lemma ScanStale(links: Links, ls: seq<Title>, maxDepth: int, depth: int, path: seq<Title>, t: Tables)
    requires depth < maxDepth && forall l | l in ls :: l in t.visited
    ensures Scan(links, FirstVisitOnly, ls, maxDepth, depth, path, t) == t
    decreases |ls|
  {
    if ls != [] {
      ScanStale(links, ls[1..], maxDepth, depth, path, t);
    }
  }

  // ---------------------------------------------------------------------
  // Rounds: `find_chain` runs `_dfs` from the root once per depth limit
  // 1, 2, ..., each time on the tables the round before left.

  function Rounds(links: Links, mode: Descent, root: Title, n: nat): Tables
    decreases n
  {
    if n == 0 then Init(root)
    else Dfs(links, mode, root, n, 0, [root], Rounds(links, mode, root, n - 1))
  }

  /** The tables after some rounds: an honest cache, a repeat-free log,
      and only walks from the root, one title longer than the rounds at
      most. */
  ghost predicate RoundOk(links: Links, root: Title, n: nat, t: Tables)
  {
    CacheOk(links, t.cache) && LogOk(t) && VisitedOk(links, root, n + 1, t.visited) && root in t.visited
  }

  lemma VisitedLonger(links: Links, root: Title, a: int, b: int, visited: map<Title, seq<Title>>)
    requires a <= b && VisitedOk(links, root, a, visited)
    ensures VisitedOk(links, root, b, visited)
  {
  }

  lemma {:induction false} RoundsOk(links: Links, mode: Descent, root: Title, n: nat)
    ensures RoundOk(links, root, n, Rounds(links, mode, root, n))
  {
    if n > 0 {
      var t := Rounds(links, mode, root, n - 1);
      RoundsOk(links, mode, root, n - 1);
      VisitedLonger(links, root, n, n + 1, t.visited);
      assert PathOk(links, root, 1, [root], root);
      DfsSound(links, mode, root, root, n, 0, [root], t);
      DfsGrows(links, mode, root, n, 0, [root], t);
      DfsLog(links, mode, root, n, 0, [root], t);
    }
  }

  /** Descending through every link, the tables after `n` rounds hold
      every title at most `n` links from the root. */
  lemma {:induction false} RoundsComplete(links: Links, root: Title, n: nat)
    ensures forall x | Within(links, root, x, n) :: x in Rounds(links, EveryLink, root, n).visited
  {
    if n > 0 {
      RoundsOk(links, EveryLink, root, n - 1);
      DfsComplete(links, root, n, 0, [root], Rounds(links, EveryLink, root, n - 1));
    }
  }

  /** The first round records the root's links. */
  lemma FirstRound(links: Links, mode: Descent, root: Title)
    ensures Rounds(links, mode, root, 1).visited.Keys == {root} + (set l | l in links(root))
  {
    assert Rounds(links, mode, root, 0) == Init(root);
    FetchOk(links, root, Init(root));
    var f := Fetch(links, root, Init(root));
    ScanShallow(links, mode, f.0, 1, 0, [root], f.1);
  }

  /** Skipping recorded titles, every round after the first changes no
      path: the tables hold the root and its links, whatever the depth. */
  lemma {:induction false} FirstVisitRounds(links: Links, root: Title, n: nat)
    requires n >= 1
    ensures Rounds(links, FirstVisitOnly, root, n).visited == Rounds(links, FirstVisitOnly, root, 1).visited
    ensures Rounds(links, FirstVisitOnly, root, n).visited.Keys == {root} + (set l | l in links(root))
  {
    if n == 1 {
      FirstRound(links, FirstVisitOnly, root);
    } else {
      var t := Rounds(links, FirstVisitOnly, root, n - 1);
      FirstVisitRounds(links, root, n - 1);
      RoundsOk(links, FirstVisitOnly, root, n - 1);
      var f := Fetch(links, root, t);
      FetchOk(links, root, t);
      ScanStale(links, f.0, n, 0, [root], f.1);
    }
  }

  // ---------------------------------------------------------------------
  // Splicing the two paths at a meeting title.

  function Reverse(s: seq<Title>): (r: seq<Title>)
    ensures |r| == |s| && forall i | 0 <= i < |s| :: r[i] == s[|s| - 1 - i]
  {
    if s == [] then [] else Reverse(s[1..]) + [s[0]]
  }

  /** The forward path, then the backward path reversed without its first
      title (the meeting title, which ends the forward path). */
  function Splice(fp: seq<Title>, bp: seq<Title>): (r: seq<Title>)
    ensures |bp| >= 1 ==> |r| == |fp| + |bp| - 1
    ensures |fp| <= |r| && r[..|fp|] == fp
    ensures forall i | |fp| <= i < |r| :: r[i] in bp
    ensures |fp| >= 1 && |bp| >= 1 && fp[|fp| - 1] == bp[|bp| - 1] ==> r[|r| - 1] == bp[0]
  {
    var rb := Reverse(bp);
    fp + (if rb == [] then [] else rb[1..])
  }

  /** The backlink lookup is the inverse of the outgoing-link lookup. */
  ghost predicate Inverse(out: Links, back: Links)
  {
    forall a, b :: b in out(a) <==> a in back(b)
  }

  predicate Ends(c: seq<Title>, start: Title, end: Title)
  {
    |c| >= 1 && c[0] == start && c[|c| - 1] == end
  }

  /** A forward path to a title and a backward path to the same title
      splice to a chain from the start to the end, one title shorter than
      the two together. */
  lemma SpliceEnds(fp: seq<Title>, bp: seq<Title>, start: Title, end: Title, k: Title)
    requires Ends(fp, start, k) && Ends(bp, end, k)
    ensures Ends(Splice(fp, bp), start, end) && |Splice(fp, bp)| == |fp| + |bp| - 1
  {
  }

  /** With backlinks the inverse of outgoing links, the splice of two
      walks is a walk over outgoing links. */
  lemma SpliceWalk(out: Links, back: Links, fp: seq<Title>, bp: seq<Title>, k: Title)
    requires Inverse(out, back)
    requires |fp| >= 1 && fp[|fp| - 1] == k && IsWalk(out, fp)
    requires |bp| >= 1 && bp[|bp| - 1] == k && IsWalk(back, bp)
    ensures IsWalk(out, Splice(fp, bp))
  {
    var r := Splice(fp, bp);
    var rb := Reverse(bp);
    forall i | 0 <= i < |r| - 1
      ensures r[i + 1] in out(r[i])
    {
      if i >= |fp| - 1 {
        assert |bp| >= 2 && r == fp + rb[1..];
        var j := |bp| - 2 - i + |fp|;
        assert 1 <= j < |bp|;
        assert r[i + 1] == rb[i + 2 - |fp|] == bp[j - 1];
        assert r[i] == bp[j] by {
          if i >= |fp| {
            assert r[i] == rb[i + 1 - |fp|];
          }
        }
        assert bp[j] in back(bp[j - 1]);
      }
    }
  }

  /** The titles both tables hold. */
  function Meet(out: Links, back: Links, mode: Descent, start: Title, end: Title, d: nat): set<Title>
  {
    Rounds(out, mode, start, d).visited.Keys * Rounds(back, mode, end, d).visited.Keys
  }

  /** `c` is the splice at a title both tables hold, and no other such
      title gives a shorter one. */
  ghost predicate ShortestSplice(fv: map<Title, seq<Title>>, bv: map<Title, seq<Title>>, c: seq<Title>)
  {
    && (exists node | node in fv && node in bv :: c == Splice(fv[node], bv[node]))
    && (forall node | node in fv && node in bv :: |c| <= |Splice(fv[node], bv[node])|)
  }

  /** The loop of `find_chain` over the meeting titles, in any order: the
      first shortest splice seen. */
  method Best(fv: map<Title, seq<Title>>, bv: map<Title, seq<Title>>) returns (chain: seq<Title>)
    requires fv.Keys * bv.Keys != {}
    ensures ShortestSplice(fv, bv, chain)
  {
    var meeting := fv.Keys * bv.Keys;
    var first :| first in meeting;
    chain := Splice(fv[first], bv[first]);
    var rest := meeting - {first};
    ghost var best := first;
    while rest != {}
      invariant rest <= meeting
      invariant best in fv && best in bv && chain == Splice(fv[best], bv[best])
      invariant forall node | node in meeting && node !in rest :: |chain| <= |Splice(fv[node], bv[node])|
      decreases |rest|
    {
      var node :| node in rest;
      var c := Splice(fv[node], bv[node]);
      if |c| < |chain| {
        chain := c;
        best := node;
      }
      rest := rest - {node};
    }
  }

  /** The round `d` is the first whose tables meet, and `c` is a shortest
      splice there. */
  ghost predicate FoundAt(out: Links, back: Links, mode: Descent, start: Title, end: Title, d: nat, c: seq<Title>)
  {
    && 1 <= d <= MaxDepth
    && (forall e | 1 <= e < d :: Meet(out, back, mode, start, end, e) == {})
    && Meet(out, back, mode, start, end, d) != {}
    && ShortestSplice(Rounds(out, mode, start, d).visited, Rounds(back, mode, end, d).visited, c)
  }

  /** A chain found in round `d` runs from the start to the end, has at
      most `2 * d + 1` titles and, with inverse lookups, follows outgoing
      links. */
  lemma FoundChain(out: Links, back: Links, mode: Descent, start: Title, end: Title, d: nat, c: seq<Title>)
    requires FoundAt(out, back, mode, start, end, d, c)
    ensures Ends(c, start, end) && |c| <= 2 * d + 1
    ensures Inverse(out, back) ==> IsWalk(out, c)
  {
    RoundsOk(out, mode, start, d);
    RoundsOk(back, mode, end, d);
    ShortestOk(out, back, start, end, d, Rounds(out, mode, start, d).visited, Rounds(back, mode, end, d).visited, c);
  }

  lemma ShortestOk(out: Links, back: Links, start: Title, end: Title, d: nat,
                   fv: map<Title, seq<Title>>, bv: map<Title, seq<Title>>, c: seq<Title>)
    requires VisitedOk(out, start, d + 1, fv) && VisitedOk(back, end, d + 1, bv)
    requires ShortestSplice(fv, bv, c)
    ensures Ends(c, start, end) && |c| <= 2 * d + 1
    ensures Inverse(out, back) ==> IsWalk(out, c)
  {
    var node :| node in fv && node in bv && c == Splice(fv[node], bv[node]);
    assert PathOk(out, start, d + 1, fv[node], node);
    assert PathOk(back, end, d + 1, bv[node], node);
    SpliceEnds(fv[node], bv[node], start, end, node);
    if Inverse(out, back) {
      SpliceWalk(out, back, fv[node], bv[node], node);
    }
  }

  // ---------------------------------------------------------------------
  // The search.

  /** Two lookups agree on walks read in opposite directions. */
  lemma {:induction false} WithinSnoc(links: Links, a: Title, y: Title, x: Title, n: nat)
    requires Within(links, a, y, n) && x in links(y)
    ensures Within(links, a, x, n + 1)
    decreases n
  {
    if a == y {
      assert Within(links, x, x, n);
    } else {
      var z :| z in links(a) && Within(links, z, y, n - 1);
      WithinSnoc(links, z, y, x, n - 1);
    }
  }

  /** With inverse lookups, a walk over outgoing links read backwards is a
      walk over backlinks. */
  lemma {:induction false} WithinReverse(out: Links, back: Links, a: Title, b: Title, n: nat)
    requires Inverse(out, back) && Within(out, a, b, n)
    ensures Within(back, b, a, n)
    decreases n
  {
    if a != b {
      var y :| y in out(a) && Within(out, y, b, n - 1);
      WithinReverse(out, back, y, b, n - 1);
      assert a in back(y);
      WithinSnoc(back, b, y, a, n - 1);
    }
  }

  /** A walk of at most `n + m` links meets, `n` links from its start and
      `m` links from its end, a title both directions can reach. */
  lemma {:induction false} MiddleTitle(out: Links, back: Links, a: Title, b: Title, n: nat, m: nat)
    requires Inverse(out, back) && Within(out, a, b, n + m)
    ensures exists mid :: Within(out, a, mid, n) && Within(back, b, mid, m)
    decreases n
  {
    if n == 0 {
      WithinReverse(out, back, a, b, m);
      assert Within(out, a, a, 0);
    } else if a == b {
      assert Within(out, a, a, n) && Within(back, b, b, m);
    } else {
      var y :| y in out(a) && Within(out, y, b, n + m - 1);
      MiddleTitle(out, back, y, b, n - 1, m);
      var mid :| Within(out, y, mid, n - 1) && Within(back, b, mid, m);
      assert Within(out, a, mid, n);
    }
  }

  lemma FoundHere(out: Links, back: Links, mode: Descent, start: Title, end: Title, d: nat, c: seq<Title>)
    requires 1 <= d <= MaxDepth
    requires forall e | 1 <= e < d :: Meet(out, back, mode, start, end, e) == {}
    requires Meet(out, back, mode, start, end, d) != {}
    requires ShortestSplice(Rounds(out, mode, start, d).visited, Rounds(back, mode, end, d).visited, c)
    ensures exists e :: FoundAt(out, back, mode, start, end, e, c)
    ensures Ends(c, start, end) && |c| <= 2 * MaxDepth + 1
    ensures Inverse(out, back) ==> IsWalk(out, c)
  {
    assert FoundAt(out, back, mode, start, end, d, c);
    FoundChain(out, back, mode, start, end, d, c);
  }

  lemma NextRound(links: Links, mode: Descent, root: Title, n: nat)
    requires n >= 1
    ensures Rounds(links, mode, root, n) == Dfs(links, mode, root, n, 0, [root], Rounds(links, mode, root, n - 1))
  {
  }

  lemma NoMeeting(out: Links, back: Links, mode: Descent, start: Title, end: Title, d: nat)
    requires Rounds(out, mode, start, d).visited.Keys * Rounds(back, mode, end, d).visited.Keys == {}
    ensures Meet(out, back, mode, start, end, d) == {}
  {
  }

  /** `find_chain`, with the descent rule as a parameter. */
  method Search(out: Links, back: Links, mode: Descent, start: Title, end: Title) returns (r: Option<seq<Title>>)
    ensures start == end ==> r == Some([start])
    ensures start != end && r.None? ==> forall d | 1 <= d <= MaxDepth :: Meet(out, back, mode, start, end, d) == {}
    ensures start != end && r.Some? ==> exists d :: FoundAt(out, back, mode, start, end, d, r.value)
    ensures r.Some? ==> Ends(r.value, start, end) && |r.value| <= 2 * MaxDepth + 1
    ensures r.Some? && Inverse(out, back) ==> IsWalk(out, r.value)
  {
    if start == end {
      return Some([start]);
    }
    var fwd := Init(start);
    var bwd := Init(end);
    var depth := 1;
    while depth <= MaxDepth
      invariant 1 <= depth <= MaxDepth + 1
      invariant fwd == Rounds(out, mode, start, depth - 1) && bwd == Rounds(back, mode, end, depth - 1)
      invariant forall e | 1 <= e < depth :: Meet(out, back, mode, start, end, e) == {}
    {
      var found;
      fwd, bwd, found := Deepen(out, back, mode, start, end, depth, fwd, bwd);
      if found.Some? {
        return found;
      }
      depth := depth + 1;
    }
    return None;
  }

  /** One pass of the loop of `find_chain`: a round in each direction,
      then the shortest splice if the tables meet. */
  method Deepen(out: Links, back: Links, mode: Descent, start: Title, end: Title, depth: nat,
                fwd: Tables, bwd: Tables) returns (fwd': Tables, bwd': Tables, found: Option<seq<Title>>)
    requires 1 <= depth <= MaxDepth
    requires fwd == Rounds(out, mode, start, depth - 1) && bwd == Rounds(back, mode, end, depth - 1)
    requires forall e | 1 <= e < depth :: Meet(out, back, mode, start, end, e) == {}
    ensures fwd' == Rounds(out, mode, start, depth) && bwd' == Rounds(back, mode, end, depth)
    ensures found.None? ==> forall e | 1 <= e <= depth :: Meet(out, back, mode, start, end, e) == {}
    ensures found.Some? ==> exists e :: FoundAt(out, back, mode, start, end, e, found.value)
    ensures found.Some? ==> Ends(found.value, start, end) && |found.value| <= 2 * MaxDepth + 1
    ensures found.Some? && Inverse(out, back) ==> IsWalk(out, found.value)
  {
    fwd' := Dfs(out, mode, start, depth, 0, [start], fwd);
    bwd' := Dfs(back, mode, end, depth, 0, [end], bwd);
    NextRound(out, mode, start, depth);
    NextRound(back, mode, end, depth);
    if fwd'.visited.Keys * bwd'.visited.Keys != {} {
      var chain := Best(fwd'.visited, bwd'.visited);
      FoundHere(out, back, mode, start, end, depth, chain);
      found := Some(chain);
    } else {
      NoMeeting(out, back, mode, start, end, depth);
      found := None;
    }
  }

  /** The chain finder with the descent repaired: besides what every
      search promises, it misses no chain of up to `2 * MaxDepth` links
      when the backlinks are the inverse of the outgoing links. */
  method FindChain(out: Links, back: Links, start: Title, end: Title) returns (r: Option<seq<Title>>)
    ensures start == end ==> r == Some([start])
    ensures r.Some? ==> Ends(r.value, start, end) && |r.value| <= 2 * MaxDepth + 1
    ensures r.Some? && Inverse(out, back) ==> IsWalk(out, r.value)
    ensures start != end && r.Some? ==> exists d :: FoundAt(out, back, EveryLink, start, end, d, r.value)
    ensures start != end && r.None? ==> forall d | 1 <= d <= MaxDepth :: Meet(out, back, EveryLink, start, end, d) == {}
    ensures Inverse(out, back) && Within(out, start, end, 2 * MaxDepth) ==> r.Some?
  {
    r := Search(out, back, EveryLink, start, end);
    NothingMissed(out, back, start, end);
  }

  lemma NothingMissed(out: Links, back: Links, start: Title, end: Title)
    ensures Inverse(out, back) && Within(out, start, end, 2 * MaxDepth) && start != end ==>
      Meet(out, back, EveryLink, start, end, MaxDepth) != {}
  {
    if Inverse(out, back) && Within(out, start, end, 2 * MaxDepth) && start != end {
      MiddleTitle(out, back, start, end, MaxDepth, MaxDepth);
      var mid :| Within(out, start, mid, MaxDepth) && Within(back, end, mid, MaxDepth);
      RoundsComplete(out, start, MaxDepth);
      RoundsComplete(back, end, MaxDepth);
      assert mid in Meet(out, back, EveryLink, start, end, MaxDepth);
    }
  }

  /** The chain finder as written: since each round skips titles already
      recorded, no round gets past the links of the two roots, and a
      chain never has more than three titles. */
  method FindChainAsWritten(out: Links, back: Links, start: Title, end: Title) returns (r: Option<seq<Title>>)
    ensures start == end ==> r == Some([start])
    ensures r.Some? ==> Ends(r.value, start, end)
    ensures r.Some? && Inverse(out, back) ==> IsWalk(out, r.value)
    ensures start != end && r.Some? ==> exists d :: FoundAt(out, back, FirstVisitOnly, start, end, d, r.value)
    ensures start != end && r.None? ==> forall d | 1 <= d <= MaxDepth :: Meet(out, back, FirstVisitOnly, start, end, d) == {}
    ensures r.Some? ==> |r.value| <= 3
  {
    r := Search(out, back, FirstVisitOnly, start, end);
    if r.Some? && start != end {
      ghost var d :| FoundAt(out, back, FirstVisitOnly, start, end, d, r.value);
      ShortAsWritten(out, back, start, end, d, r.value);
    }
  }

  lemma ShortAsWritten(out: Links, back: Links, start: Title, end: Title, d: nat, c: seq<Title>)
    requires FoundAt(out, back, FirstVisitOnly, start, end, d, c)
    ensures |c| <= 3
  {
    FirstVisitRounds(out, start, d);
    FirstVisitRounds(back, end, d);
    RoundsOk(out, FirstVisitOnly, start, 1);
    RoundsOk(back, FirstVisitOnly, end, 1);
    ShortestOk(out, back, start, end, 1, Rounds(out, FirstVisitOnly, start, d).visited, Rounds(back, FirstVisitOnly, end, d).visited, c);
  }

  // ---------------------------------------------------------------------
  // A chain the code as written misses: A links to B, B to C, C to D.

  function Line(t: Title): seq<Title>
  {
    if t == "A" then ["B"] else if t == "B" then ["C"] else if t == "C" then ["D"] else []
  }

  function LineBack(t: Title): seq<Title>
  {
    if t == "B" then ["A"] else if t == "C" then ["B"] else if t == "D" then ["C"] else []
  }

  /** The backlinks of the line are its outgoing links reversed. */
  lemma LineInverse()
    ensures Inverse(Line, LineBack)
  {
  }

  /** From A to D there is a chain of three links... */
  lemma LineChain()
    ensures IsWalk(Line, ["A", "B", "C", "D"]) && Within(Line, "A", "D", 2 * MaxDepth)
  {
    assert Within(Line, "A", "A", 3);
    WithinSnoc(Line, "A", "A", "B", 3);
    WithinSnoc(Line, "A", "B", "C", 4);
    WithinSnoc(Line, "A", "C", "D", 5);
  }

  /** ... which the repaired search finds (by the contract of
      `FindChain`), but the search as written records only A and B forward
      and only D and C backward in every round, so its tables never meet
      and `FindChainAsWritten` returns nothing. */
  lemma MissedChain()
    ensures forall d | 1 <= d <= MaxDepth :: Meet(Line, LineBack, FirstVisitOnly, "A", "D", d) == {}
  {
    forall d | 1 <= d <= MaxDepth
      ensures Meet(Line, LineBack, FirstVisitOnly, "A", "D", d) == {}
    {
      FirstVisitRounds(Line, "A", d);
      FirstVisitRounds(LineBack, "D", d);
      assert (set l | l in Line("A")) == {"B"};
      assert (set l | l in LineBack("D")) == {"C"};
    }
  }
}
