/**
 * The feed walker and the downloader adapter: the scroll / collect / download
 * loop of `run` and the byte accounting of `downloadFile`.
 *
 * The browser and the downloader are inputs. Each iteration of the loop
 * observes one Page: the anchor hrefs in document order and the scroll height
 * read after the downloads. The downloader is a function from a URL to what
 * the process does for it: its stdout chunks and its exit code.
 *
 * Pass and Walk give the behaviour of one iteration's download loop and of the
 * whole walk as functions of their inputs; class Walker runs the same loops on
 * mutable state and is proved to end in the state those functions give.
 */
module FeedWalker {
  import opened Wrappers
  import SizeParser
  import LinkClassifier

  /** The session's byte budget: 1 GiB. */
  const MAX_DOWNLOAD_SIZE_BYTES: real := 1.0 * 1024.0 * 1024.0 * 1024.0

  /** What the page shows in one iteration. */
  datatype Page = Page(hrefs: seq<string>, scrollHeight: int)

  /** What the downloader process does for one URL: its standard-output chunks,
      in order, and its exit code (None when it ends without one, on a signal). */
  datatype Download = Download(chunks: seq<string>, exitCode: Option<int>)

  /** One link handed to the downloader: whether the download resolved and the
      byte total once its output was read. */
  datatype Dispatch = Dispatch(url: string, resolved: bool, totalAfter: real)

  /** Why the walk stopped: the loop's budget test failed, the scroll height did
      not change, or the observations given to the model ran out. */
  datatype StopReason = BudgetReached | FeedExhausted | OutOfObservations

  /** The state after one iteration's download loop, and whether it left by the budget `break`. */
  datatype PassResult = PassResult(total: real, seen: set<string>, dispatched: seq<Dispatch>, brokeOnBudget: bool)

  /** The state after the walk, the links it dispatched and the number of iterations it ran. */
  datatype WalkResult = WalkResult(
    total: real, seen: set<string>, lastHeight: int,
    trace: seq<Dispatch>, iterations: nat, reason: StopReason)

  // ---------------------------------------------------------------- sequences

  function Elems<T>(s: seq<T>): set<T>
  {
    set x | x in s
  }

  predicate NoDuplicates<T(==)>(s: seq<T>)
  {
    forall i, j :: 0 <= i < j < |s| ==> s[i] != s[j]
  }

  /** a is s with some elements left out, the rest in their order. */
  predicate IsSubsequence<T(==)>(a: seq<T>, s: seq<T>)
    decreases |s|
  {
    if s == [] then a == []
    else (a != [] && a[0] == s[0] && IsSubsequence(a[1..], s[1..])) || IsSubsequence(a, s[1..])
  }

  lemma {:induction false} SubsequenceTransitive<T>(a: seq<T>, b: seq<T>, c: seq<T>)
    requires IsSubsequence(a, b) && IsSubsequence(b, c)
    ensures IsSubsequence(a, c)
    decreases |c|
  {
    if c == [] {
    } else if IsSubsequence(b, c[1..]) {
      SubsequenceTransitive(a, b, c[1..]);
    } else {
      assert b != [] && b[0] == c[0] && IsSubsequence(b[1..], c[1..]);
      if a != [] && a[0] == b[0] && IsSubsequence(a[1..], b[1..]) {
        SubsequenceTransitive(a[1..], b[1..], c[1..]);
      } else {
        SubsequenceTransitive(a, b[1..], c[1..]);
      }
    }
  }

  lemma {:induction false} SubsequenceElems<T>(a: seq<T>, s: seq<T>)
    requires IsSubsequence(a, s)
    ensures forall x :: x in a ==> x in s
    decreases |s|
  {
    if s != [] {
      if a != [] && a[0] == s[0] && IsSubsequence(a[1..], s[1..]) {
        SubsequenceElems(a[1..], s[1..]);
        assert forall x :: x in a ==> x == a[0] || x in a[1..];
      } else {
        SubsequenceElems(a, s[1..]);
      }
    }
  }

  /** The elements of s that satisfy p, in their order: Array.prototype.filter. */
  function Filter(s: seq<string>, p: string -> bool): seq<string>
  {
    if s == [] then []
    else if p(s[0]) then [s[0]] + Filter(s[1..], p)
    else Filter(s[1..], p)
  }

  /** Filter keeps exactly the elements that satisfy p, in their order. */
  lemma {:induction false} FilterSpec(s: seq<string>, p: string -> bool)
    ensures forall x :: x in Filter(s, p) <==> x in s && p(x)
    ensures forall x :: multiset(Filter(s, p))[x] == if p(x) then multiset(s)[x] else 0
    ensures IsSubsequence(Filter(s, p), s)
  {
    if s != [] {
      var rest := Filter(s[1..], p);
      FilterSpec(s[1..], p);
      assert s == [s[0]] + s[1..];
      assert multiset(s) == multiset([s[0]]) + multiset(s[1..]);
      assert forall x :: x in s <==> x == s[0] || x in s[1..];
      if p(s[0]) {
        assert ([s[0]] + rest)[1..] == rest;
        assert multiset([s[0]] + rest) == multiset([s[0]]) + multiset(rest);
      }
    }
  }

  // ------------------------------------------------------- downloader adapter

  /** The bytes one stdout chunk adds to the total: the parsed size, or nothing. */
  function ChunkBytes(chunk: string): (b: real)
    ensures b >= 0.0
    ensures SizeParser.ParseSize(chunk).None? ==> b == 0.0
  {
    SizeParser.ParseSize(chunk).GetOr(0.0)
  }

  /** The bytes a sequence of chunks adds to the total, read in order. */
  function ChunksBytes(chunks: seq<string>): (b: real)
    ensures b >= 0.0
  {
    if chunks == [] then 0.0
    else ChunkBytes(chunks[0]) + ChunksBytes(chunks[1..])
  }

  /** The downloader's promise resolves exactly on exit code 0; every other code,
      and a missing one, rejects. */
  predicate Resolves(exitCode: Option<int>)
  {
    exitCode == Some(0)
  }

  function DownloadBytes(d: Download): real
  {
    ChunksBytes(d.chunks)
  }

  // ------------------------------------------------------------ link harvest

  /** The $$eval filter: a non-empty href that starts with "https://". */
  predicate IsSecure(href: string)
  {
    |href| >= 8 && href[..8] == "https://"
  }

  /** The media links of one iteration, in anchor order: the hrefs that start
      with "https://", then those the classifier accepts. */
  function CandidateLinks(hrefs: seq<string>): seq<string>
  {
    Filter(Filter(hrefs, IsSecure), LinkClassifier.IsMediaLink)
  }

  /** The candidates are exactly the secure media links among the hrefs, in the hrefs' order. */
  lemma CandidateLinksMeaning(hrefs: seq<string>)
    ensures forall l :: l in CandidateLinks(hrefs) <==> l in hrefs && IsSecure(l) && LinkClassifier.IsMediaLink(l)
    ensures forall l ::
      multiset(CandidateLinks(hrefs))[l] == if IsSecure(l) && LinkClassifier.IsMediaLink(l) then multiset(hrefs)[l] else 0
    ensures IsSubsequence(CandidateLinks(hrefs), hrefs)
  {
    var postLinks := Filter(hrefs, IsSecure);
    FilterSpec(hrefs, IsSecure);
    FilterSpec(postLinks, LinkClassifier.IsMediaLink);
    SubsequenceTransitive(Filter(postLinks, LinkClassifier.IsMediaLink), postLinks, hrefs);
  }

  /** The position of the first x in s, or |s| when there is none. */
  function FirstIndex(s: seq<string>, x: string): (i: nat)
    ensures i <= |s|
  {
    if s == [] then 0 else if s[0] == x then 0 else 1 + FirstIndex(s[1..], x)
  }

  /** The elements of r appear in the order of their first occurrences in s. */
  ghost predicate FirstOccurrenceOrder(r: seq<string>, s: seq<string>)
  {
    forall i, j :: 0 <= i < j < |r| ==> FirstIndex(s, r[i]) < FirstIndex(s, r[j])
  }

  /** The links of `links` not in `seen`, each at its first occurrence, in order:
      what the download loop would dispatch without a budget. */
  function NewLinks(links: seq<string>, seen: set<string>): seq<string>
    decreases |links|
  {
    if links == [] then []
    else if links[0] in seen then NewLinks(links[1..], seen)
    else [links[0]] + NewLinks(links[1..], seen + {links[0]})
  }

  /** NewLinks keeps exactly the unseen links, once each, in the order of their
      first occurrences. */
  lemma {:induction false} NewLinksMeaning(links: seq<string>, seen: set<string>)
    ensures var r := NewLinks(links, seen);
      && (forall l :: l in r <==> l in links && l !in seen)
      && NoDuplicates(r)
      && IsSubsequence(r, links)
      && FirstOccurrenceOrder(r, links)
    decreases |links|
  {
    NewLinksOrder(links, seen);
    if links != [] {
      if links[0] in seen {
        NewLinksMeaning(links[1..], seen);
      } else {
        var rest := NewLinks(links[1..], seen + {links[0]});
        NewLinksMeaning(links[1..], seen + {links[0]});
        var r := [links[0]] + rest;
        assert r[1..] == rest;
        assert forall l :: l in r <==> l == links[0] || l in rest;
        assert forall l :: l in links <==> l == links[0] || l in links[1..];
        forall i, j | 0 <= i < j < |r| ensures r[i] != r[j] {
          assert r[j] == rest[j - 1];
          if i > 0 {
            assert r[i] == rest[i - 1];
          }
        }
      }
    }
  }

  /** No link of NewLinks was seen before. */
  lemma {:induction false} NewLinksUnseen(links: seq<string>, seen: set<string>)
    ensures forall l :: l in NewLinks(links, seen) ==> l !in seen
    decreases |links|
  {
    if links != [] {
      if links[0] in seen {
        NewLinksUnseen(links[1..], seen);
      } else {
        NewLinksUnseen(links[1..], seen + {links[0]});
      }
    }
  }

  /** The order half of NewLinksMeaning: a link new to the pass is dispatched
      before every link whose first occurrence comes later. */
  lemma {:induction false} NewLinksOrder(links: seq<string>, seen: set<string>)
    ensures FirstOccurrenceOrder(NewLinks(links, seen), links)
    decreases |links|
  {
    if links != [] {
      var seen' := if links[0] in seen then seen else seen + {links[0]};
      var rest := NewLinks(links[1..], seen');
      NewLinksOrder(links[1..], seen');
      NewLinksUnseen(links[1..], seen');
      forall k | 0 <= k < |rest| ensures FirstIndex(links, rest[k]) == 1 + FirstIndex(links[1..], rest[k]) {
        assert rest[k] in rest;
      }
      if links[0] !in seen {
        var r := [links[0]] + rest;
        assert NewLinks(links, seen) == r;
        forall i, j | 0 <= i < j < |r| ensures FirstIndex(links, r[i]) < FirstIndex(links, r[j]) {
          assert r[j] == rest[j - 1];
          if i > 0 {
            assert r[i] == rest[i - 1];
          }
        }
      } else {
        assert NewLinks(links, seen) == rest;
      }
    }
  }

  // --------------------------------------------------------- one iteration

  function Urls(trace: seq<Dispatch>): (r: seq<string>)
    ensures |r| == |trace|
    ensures forall k :: 0 <= k < |trace| ==> r[k] == trace[k].url
  {
    seq(|trace|, k requires 0 <= k < |trace| => trace[k].url)
  }

  function Prepend(ds: seq<Dispatch>, p: PassResult): PassResult
  {
    p.(dispatched := ds + p.dispatched)
  }

  /** The inner `for` loop over one iteration's media links, from the given total
      and seen-set: an unseen link is added to the set, downloaded, and its
      output counted; a resolved download that leaves the total at or over the
      cap ends the loop; a rejected one never does. */
  function Pass(total: real, seen: set<string>, links: seq<string>, fetch: string -> Download, cap: real): PassResult
    decreases |links|
  {
    if links == [] then PassResult(total, seen, [], false)
    else if links[0] in seen then Pass(total, seen, links[1..], fetch, cap)
    else
      var d := fetch(links[0]);
      var after := total + DownloadBytes(d);
      var ev := Dispatch(links[0], Resolves(d.exitCode), after);
      if ev.resolved && after >= cap then PassResult(after, seen + {links[0]}, [ev], true)
      else Prepend([ev], Pass(after, seen + {links[0]}, links[1..], fetch, cap))
  }

  /** One step of the download loop, as the loop body takes it. */
  lemma PassStep(total: real, seen: set<string>, links: seq<string>, fetch: string -> Download, cap: real)
    requires links != []
    ensures links[0] in seen ==> Pass(total, seen, links, fetch, cap) == Pass(total, seen, links[1..], fetch, cap)
    ensures links[0] !in seen ==>
      var d := fetch(links[0]);
      var ev := Dispatch(links[0], Resolves(d.exitCode), total + DownloadBytes(d));
      Pass(total, seen, links, fetch, cap) ==
        if HitsCap(ev, cap) then PassResult(ev.totalAfter, seen + {links[0]}, [ev], true)
        else Prepend([ev], Pass(ev.totalAfter, seen + {links[0]}, links[1..], fetch, cap))
  {
  }

  /** The trace records every download's effect: starting from t0, each
      dispatch adds all the bytes its output reports, whether or not it
      resolved, and the total ends at tEnd. */
  ghost predicate Accounts(t0: real, trace: seq<Dispatch>, fetch: string -> Download, tEnd: real)
    decreases |trace|
  {
    if trace == [] then tEnd == t0
    else Records(t0, trace[0], fetch) && Accounts(trace[0].totalAfter, trace[1..], fetch, tEnd)
  }

  /** The dispatch adds to t0 every byte its download reports, and records whether it resolved. */
  ghost predicate Records(t0: real, ev: Dispatch, fetch: string -> Download)
  {
    var d := fetch(ev.url);
    ev.totalAfter == t0 + DownloadBytes(d) && ev.resolved == Resolves(d.exitCode)
  }

  /** The total never decreases along a trace. */
  lemma {:induction false} AccountsMonotone(t0: real, trace: seq<Dispatch>, fetch: string -> Download, tEnd: real)
    requires Accounts(t0, trace, fetch, tEnd)
    ensures t0 <= tEnd
    ensures forall k :: 0 <= k < |trace| ==> t0 <= trace[k].totalAfter <= tEnd
    decreases |trace|
  {
    if trace != [] {
      AccountsMonotone(trace[0].totalAfter, trace[1..], fetch, tEnd);
      assert forall k :: 1 <= k < |trace| ==> trace[k] == trace[1..][k - 1];
    }
  }

  lemma {:induction false} AccountsAppend(t0: real, a: seq<Dispatch>, t1: real, b: seq<Dispatch>, fetch: string -> Download, t2: real)
    requires Accounts(t0, a, fetch, t1) && Accounts(t1, b, fetch, t2)
    ensures Accounts(t0, a + b, fetch, t2)
    decreases |a|
  {
    if a == [] {
      assert a + b == b;
    } else {
      var ab := a + b;
      assert ab != [] && ab[0] == a[0] && ab[1..] == a[1..] + b;
      assert Records(t0, a[0], fetch) && Accounts(a[0].totalAfter, a[1..], fetch, t1);
      AccountsAppend(a[0].totalAfter, a[1..], t1, b, fetch, t2);
      assert Accounts(ab[0].totalAfter, ab[1..], fetch, t2);
    }
  }

  /** Every byte reported by a dispatched download is in the total, and nothing else is. */
  lemma {:induction false} PassAccounts(total: real, seen: set<string>, links: seq<string>, fetch: string -> Download, cap: real)
    ensures var p := Pass(total, seen, links, fetch, cap); Accounts(total, p.dispatched, fetch, p.total)
    decreases |links|
  {
    if links != [] {
      if links[0] in seen {
        PassAccounts(total, seen, links[1..], fetch, cap);
      } else {
        var after := total + DownloadBytes(fetch(links[0]));
        PassAccounts(after, seen + {links[0]}, links[1..], fetch, cap);
        var p := Pass(total, seen, links, fetch, cap);
        assert p.dispatched[1..] == Pass(after, seen + {links[0]}, links[1..], fetch, cap).dispatched || |p.dispatched| == 1;
      }
    }
  }

  /** Dispatch follows the page's order, skipping links already seen: the links
      dispatched are a prefix of NewLinks, and all of them unless the budget
      `break` was taken. */
  lemma {:induction false} PassOrder(total: real, seen: set<string>, links: seq<string>, fetch: string -> Download, cap: real)
    ensures var p := Pass(total, seen, links, fetch, cap);
      && Urls(p.dispatched) <= NewLinks(links, seen)
      && (!p.brokeOnBudget ==> Urls(p.dispatched) == NewLinks(links, seen))
    decreases |links|
  {
    if links != [] {
      if links[0] in seen {
        PassOrder(total, seen, links[1..], fetch, cap);
      } else {
        var after := total + DownloadBytes(fetch(links[0]));
        var rest := Pass(after, seen + {links[0]}, links[1..], fetch, cap);
        PassOrder(after, seen + {links[0]}, links[1..], fetch, cap);
        var p := Pass(total, seen, links, fetch, cap);
        var n := NewLinks(links, seen);
        if !(p.brokeOnBudget && |p.dispatched| == 1) {
          assert p.dispatched == [p.dispatched[0]] + rest.dispatched;
          assert Urls(p.dispatched) == [links[0]] + Urls(rest.dispatched);
        }
      }
    }
  }

  /** The seen-set grows by exactly the links dispatched. */
  lemma {:induction false} PassSeen(total: real, seen: set<string>, links: seq<string>, fetch: string -> Download, cap: real)
    ensures var p := Pass(total, seen, links, fetch, cap); p.seen == seen + Elems(Urls(p.dispatched))
    decreases |links|
  {
    if links != [] {
      if links[0] in seen {
        PassSeen(total, seen, links[1..], fetch, cap);
      } else {
        var after := total + DownloadBytes(fetch(links[0]));
        var rest := Pass(after, seen + {links[0]}, links[1..], fetch, cap);
        PassSeen(after, seen + {links[0]}, links[1..], fetch, cap);
        var p := Pass(total, seen, links, fetch, cap);
        if !(p.brokeOnBudget && |p.dispatched| == 1) {
          assert Urls(p.dispatched) == [links[0]] + Urls(rest.dispatched);
        } else {
          assert Urls(p.dispatched) == [links[0]];
        }
      }
    }
  }

  /** The dispatch is a resolved download that left the total at or over the cap. */
  predicate HitsCap(d: Dispatch, cap: real)
  {
    d.resolved && d.totalAfter >= cap
  }

  /** Only the last dispatch of the trace may be one that hits the cap. */
  ghost predicate StopsOnlyAtEnd(ds: seq<Dispatch>, cap: real)
  {
    forall k :: 0 <= k < |ds| - 1 ==> !HitsCap(ds[k], cap)
  }

  lemma StopsOnlyAtEndAppend(a: seq<Dispatch>, b: seq<Dispatch>, cap: real)
    requires StopsOnlyAtEnd(a, cap) && StopsOnlyAtEnd(b, cap)
    requires a != [] && HitsCap(a[|a| - 1], cap) ==> b == []
    ensures StopsOnlyAtEnd(a + b, cap)
  {
    forall k | 0 <= k < |a + b| - 1 ensures !HitsCap((a + b)[k], cap) {
      if k >= |a| {
        assert (a + b)[k] == b[k - |a|];
      }
    }
  }

  /** Only a resolved download that leaves the total at or over the cap ends the
      loop early, and it is then the last one dispatched; a rejected download
      never ends it, whatever the total. */
  lemma {:induction false} PassBudget(total: real, seen: set<string>, links: seq<string>, fetch: string -> Download, cap: real)
    ensures var p := Pass(total, seen, links, fetch, cap); var ds := p.dispatched;
      && StopsOnlyAtEnd(ds, cap)
      && (p.brokeOnBudget <==> |ds| > 0 && HitsCap(ds[|ds| - 1], cap))
    decreases |links|
  {
    if links != [] {
      if links[0] in seen {
        PassBudget(total, seen, links[1..], fetch, cap);
      } else {
        var after := total + DownloadBytes(fetch(links[0]));
        var rest := Pass(after, seen + {links[0]}, links[1..], fetch, cap);
        PassBudget(after, seen + {links[0]}, links[1..], fetch, cap);
        var p := Pass(total, seen, links, fetch, cap);
        if !(p.brokeOnBudget && |p.dispatched| == 1) {
          assert forall k :: 1 <= k < |p.dispatched| ==> p.dispatched[k] == rest.dispatched[k - 1];
        }
      }
    }
  }

  // ---------------------------------------------------------------- the walk

  /** One iteration's downloads: the download loop over the page's media links. */
  function Iteration(total: real, seen: set<string>, page: Page, fetch: string -> Download, cap: real): PassResult
  {
    Pass(total, seen, CandidateLinks(page.hrefs), fetch, cap)
  }

  function Resume(ds: seq<Dispatch>, n: nat, r: WalkResult): WalkResult
  {
    r.(trace := ds + r.trace, iterations := n + r.iterations)
  }

  /** The `while` loop of `run`, from the given total, seen-set and last height:
      while the total is under the cap, take the next page, run the download
      loop over its media links, and stop when the scroll height equals the
      last one read, otherwise remember it. */
  function Walk(total: real, seen: set<string>, lastHeight: int, pages: seq<Page>, fetch: string -> Download, cap: real): WalkResult
    decreases |pages|
  {
    if total >= cap then WalkResult(total, seen, lastHeight, [], 0, BudgetReached)
    else if pages == [] then WalkResult(total, seen, lastHeight, [], 0, OutOfObservations)
    else
      var p := Iteration(total, seen, pages[0], fetch, cap);
      if pages[0].scrollHeight == lastHeight then
        WalkResult(p.total, p.seen, lastHeight, p.dispatched, 1, FeedExhausted)
      else
        Resume(p.dispatched, 1, Walk(p.total, p.seen, pages[0].scrollHeight, pages[1..], fetch, cap))
  }

  /** The height the walk compares with the one read in iteration i (numbered from 0). */
  function PrevHeight(h0: int, pages: seq<Page>, i: nat): int
    requires i <= |pages|
  {
    if i == 0 then h0 else pages[i - 1].scrollHeight
  }

  /** The links one iteration dispatches are distinct, unseen before it, and among its links. */
  lemma PassDispatchesNew(total: real, seen: set<string>, links: seq<string>, fetch: string -> Download, cap: real)
    ensures var u := Urls(Pass(total, seen, links, fetch, cap).dispatched);
      && NoDuplicates(u)
      && (forall k :: 0 <= k < |u| ==> u[k] !in seen && u[k] in links)
      && FirstOccurrenceOrder(u, links)
  {
    PassOrder(total, seen, links, fetch, cap);
    NewLinksMeaning(links, seen);
    SubsequenceElems(NewLinks(links, seen), links);
    var u := Urls(Pass(total, seen, links, fetch, cap).dispatched);
    var n := NewLinks(links, seen);
    assert forall k :: 0 <= k < |u| ==> u[k] == n[k];
  }

  /** No URL is dispatched twice in ds, and none that was in seen. */
  ghost predicate FreshOnce(ds: seq<Dispatch>, seen: set<string>)
  {
    NoDuplicates(Urls(ds)) && forall k :: 0 <= k < |ds| ==> ds[k].url !in seen
  }

  /** One iteration dispatches fresh URLs once each and adds exactly them to the seen-set. */
  lemma IterationFresh(total: real, seen: set<string>, page: Page, fetch: string -> Download, cap: real)
    ensures var p := Iteration(total, seen, page, fetch, cap);
      FreshOnce(p.dispatched, seen) && p.seen == seen + Elems(Urls(p.dispatched))
  {
    var links := CandidateLinks(page.hrefs);
    PassDispatchesNew(total, seen, links, fetch, cap);
    PassSeen(total, seen, links, fetch, cap);
    var ds := Pass(total, seen, links, fetch, cap).dispatched;
    forall k | 0 <= k < |ds| ensures ds[k].url !in seen {
      assert ds[k].url == Urls(ds)[k];
    }
  }

  lemma FreshOnceAppend(a: seq<Dispatch>, b: seq<Dispatch>, seen: set<string>)
    requires FreshOnce(a, seen) && FreshOnce(b, seen + Elems(Urls(a)))
    ensures FreshOnce(a + b, seen)
    ensures Elems(Urls(a + b)) == Elems(Urls(a)) + Elems(Urls(b))
  {
    var u, v := Urls(a), Urls(b);
    assert Urls(a + b) == u + v;
    forall k | 0 <= k < |v| ensures v[k] !in Elems(u) {
      assert v[k] == b[k].url;
    }
    NoDuplicatesAppend(u, v);
    forall k | 0 <= k < |a + b| ensures (a + b)[k].url !in seen {
      if k >= |a| {
        assert (a + b)[k] == b[k - |a|];
      }
    }
    assert Elems(u + v) == Elems(u) + Elems(v);
  }

  /** Every URL is handed to the downloader at most once per walk, never one
      seen before it, and the seen-set ends as the links seen before plus the
      links dispatched: a link whose download fails is never retried. */
  lemma {:induction false} WalkDispatchesOnce(total: real, seen: set<string>, h0: int, pages: seq<Page>, fetch: string -> Download, cap: real)
    ensures var r := Walk(total, seen, h0, pages, fetch, cap);
      FreshOnce(r.trace, seen) && r.seen == seen + Elems(Urls(r.trace))
    decreases |pages|
  {
    if total < cap && pages != [] {
      var p := Iteration(total, seen, pages[0], fetch, cap);
      IterationFresh(total, seen, pages[0], fetch, cap);
      if pages[0].scrollHeight != h0 {
        var rest := Walk(p.total, p.seen, pages[0].scrollHeight, pages[1..], fetch, cap);
        WalkDispatchesOnce(p.total, p.seen, pages[0].scrollHeight, pages[1..], fetch, cap);
        FreshOnceAppend(p.dispatched, rest.trace, seen);
      }
    }
  }

  lemma NoDuplicatesAppend(u: seq<string>, v: seq<string>)
    requires NoDuplicates(u) && NoDuplicates(v)
    requires forall k :: 0 <= k < |v| ==> v[k] !in Elems(u)
    ensures NoDuplicates(u + v)
  {
    forall i, j | 0 <= i < j < |u + v| ensures (u + v)[i] != (u + v)[j] {
      if i < |u| && j >= |u| {
        assert (u + v)[j] == v[j - |u|];
        assert (u + v)[i] in Elems(u);
      }
    }
  }

  /** The url is among the anchors of one of the first n pages. */
  ghost predicate OnPage(url: string, pages: seq<Page>, n: nat)
  {
    exists i :: 0 <= i < n && i < |pages| && url in pages[i].hrefs
  }

  lemma OnLaterPage(url: string, pages: seq<Page>, n: nat)
    requires pages != [] && OnPage(url, pages[1..], n)
    ensures OnPage(url, pages, n + 1)
  {
    var i :| 0 <= i < n && i < |pages[1..]| && url in pages[1..][i].hrefs;
    assert pages[1..][i] == pages[i + 1];
  }

  /** Every dispatch is of a link that starts with "https://", that the
      classifier accepts, and that is among the anchors of one of the first n pages. */
  ghost predicate Dispatchable(ds: seq<Dispatch>, pages: seq<Page>, n: nat)
  {
    forall k :: 0 <= k < |ds| ==>
      && IsSecure(ds[k].url) && LinkClassifier.IsMediaLink(ds[k].url)
      && OnPage(ds[k].url, pages, n)
  }

  lemma IterationDispatchable(total: real, seen: set<string>, pages: seq<Page>, fetch: string -> Download, cap: real)
    requires pages != []
    ensures Dispatchable(Iteration(total, seen, pages[0], fetch, cap).dispatched, pages, 1)
  {
    var links := CandidateLinks(pages[0].hrefs);
    CandidateLinksMeaning(pages[0].hrefs);
    var ds := Pass(total, seen, links, fetch, cap).dispatched;
    PassDispatchesNew(total, seen, links, fetch, cap);
    forall k | 0 <= k < |ds|
      ensures IsSecure(ds[k].url) && LinkClassifier.IsMediaLink(ds[k].url) && OnPage(ds[k].url, pages, 1)
    {
      assert ds[k].url == Urls(ds)[k];
      assert ds[k].url in pages[0].hrefs;
    }
  }

  lemma DispatchableAppend(a: seq<Dispatch>, b: seq<Dispatch>, pages: seq<Page>, n: nat)
    requires pages != [] && Dispatchable(a, pages, 1) && Dispatchable(b, pages[1..], n)
    ensures Dispatchable(a + b, pages, n + 1)
  {
    forall k | 0 <= k < |a + b|
      ensures IsSecure((a + b)[k].url) && LinkClassifier.IsMediaLink((a + b)[k].url) && OnPage((a + b)[k].url, pages, n + 1)
    {
      if k < |a| {
        assert (a + b)[k] == a[k];
      } else {
        assert (a + b)[k] == b[k - |a|];
        OnLaterPage(b[k - |a|].url, pages, n);
      }
    }
  }

  /** Only links that start with "https://" and that the classifier accepts are
      dispatched, each one found among the anchors of a page the walk read. */
  lemma {:induction false} WalkDispatchesCandidates(total: real, seen: set<string>, h0: int, pages: seq<Page>, fetch: string -> Download, cap: real)
    ensures var r := Walk(total, seen, h0, pages, fetch, cap); Dispatchable(r.trace, pages, r.iterations)
    decreases |pages|
  {
    if total < cap && pages != [] {
      var p := Iteration(total, seen, pages[0], fetch, cap);
      IterationDispatchable(total, seen, pages, fetch, cap);
      if pages[0].scrollHeight != h0 {
        var rest := Walk(p.total, p.seen, pages[0].scrollHeight, pages[1..], fetch, cap);
        WalkDispatchesCandidates(p.total, p.seen, pages[0].scrollHeight, pages[1..], fetch, cap);
        DispatchableAppend(p.dispatched, rest.trace, pages, rest.iterations);
      }
    }
  }

  /** The walk's total is the total it started from plus every byte reported by
      every download it dispatched, failed ones included; it never decreases. */
  lemma {:induction false} WalkAccounts(total: real, seen: set<string>, h0: int, pages: seq<Page>, fetch: string -> Download, cap: real)
    ensures var r := Walk(total, seen, h0, pages, fetch, cap); Accounts(total, r.trace, fetch, r.total) && total <= r.total
    decreases |pages|
  {
    var r := Walk(total, seen, h0, pages, fetch, cap);
    if total < cap && pages != [] {
      var links := CandidateLinks(pages[0].hrefs);
      var p := Pass(total, seen, links, fetch, cap);
      PassAccounts(total, seen, links, fetch, cap);
      if pages[0].scrollHeight != h0 {
        WalkAccounts(p.total, p.seen, pages[0].scrollHeight, pages[1..], fetch, cap);
        var rest := Walk(p.total, p.seen, pages[0].scrollHeight, pages[1..], fetch, cap);
        AccountsAppend(total, p.dispatched, p.total, rest.trace, fetch, r.total);
      }
    }
    AccountsMonotone(total, r.trace, fetch, r.total);
  }

  /** After a download that resolves with the total at or over the cap nothing
      more is dispatched, in that iteration or in a later one. */
  lemma {:induction false} WalkStopsAfterBudget(total: real, seen: set<string>, h0: int, pages: seq<Page>, fetch: string -> Download, cap: real)
    ensures StopsOnlyAtEnd(Walk(total, seen, h0, pages, fetch, cap).trace, cap)
    decreases |pages|
  {
    if total < cap && pages != [] {
      var links := CandidateLinks(pages[0].hrefs);
      var p := Pass(total, seen, links, fetch, cap);
      PassBudget(total, seen, links, fetch, cap);
      if pages[0].scrollHeight != h0 {
        PassAccounts(total, seen, links, fetch, cap);
        AccountsMonotone(total, p.dispatched, fetch, p.total);
        WalkStopsAfterBudget(p.total, p.seen, pages[0].scrollHeight, pages[1..], fetch, cap);
        var rest := Walk(p.total, p.seen, pages[0].scrollHeight, pages[1..], fetch, cap);
        if p.dispatched != [] && HitsCap(p.dispatched[|p.dispatched| - 1], cap) {
          assert rest.trace == [];
        }
        StopsOnlyAtEndAppend(p.dispatched, rest.trace, cap);
      }
    }
  }

  /** How the walk ends. It runs at most one iteration per page; every iteration
      but a final FeedExhausted one read a height different from the one before;
      FeedExhausted means the last height read equalled the previous one;
      BudgetReached means the total is at or over the cap; running out of pages
      means every page was used with the total still under the cap. The last
      height remembered is the last one read. */
  lemma {:induction false} WalkStops(total: real, seen: set<string>, h0: int, pages: seq<Page>, fetch: string -> Download, cap: real)
    ensures var r := Walk(total, seen, h0, pages, fetch, cap);
      && r.iterations <= |pages|
      && (forall i :: 0 <= i < r.iterations && !(r.reason == FeedExhausted && i == r.iterations - 1) ==>
            pages[i].scrollHeight != PrevHeight(h0, pages, i))
      && (r.reason == FeedExhausted ==>
            r.iterations >= 1 && pages[r.iterations - 1].scrollHeight == PrevHeight(h0, pages, r.iterations - 1))
      && (r.reason == BudgetReached ==> r.total >= cap)
      && (r.reason == OutOfObservations ==> r.iterations == |pages| && r.total < cap)
      && r.lastHeight == PrevHeight(h0, pages, r.iterations)
    decreases |pages|
  {
    if total < cap && pages != [] && pages[0].scrollHeight != h0 {
      var h1 := pages[0].scrollHeight;
      var p := Pass(total, seen, CandidateLinks(pages[0].hrefs), fetch, cap);
      WalkStops(p.total, p.seen, h1, pages[1..], fetch, cap);
      var rest := Walk(p.total, p.seen, h1, pages[1..], fetch, cap);
      assert forall i :: 0 <= i <= rest.iterations ==> PrevHeight(h1, pages[1..], i) == PrevHeight(h0, pages, i + 1);
      var r := Walk(total, seen, h0, pages, fetch, cap);
      forall i | 0 <= i < r.iterations && !(r.reason == FeedExhausted && i == r.iterations - 1)
        ensures pages[i].scrollHeight != PrevHeight(h0, pages, i)
      {
        if i > 0 {
          assert pages[i] == pages[1..][i - 1];
        }
      }
    }
  }

  /** The loop's budget test: an iteration that leaves the total at or over the
      cap, by the `break` or by the downloads of its last links, is the last one;
      the walk then stops on the budget, or on the height when it is unchanged. */
  lemma CapEndsWalk(total: real, seen: set<string>, h0: int, pages: seq<Page>, fetch: string -> Download, cap: real)
    requires total < cap && pages != []
    requires Iteration(total, seen, pages[0], fetch, cap).total >= cap
    ensures var r := Walk(total, seen, h0, pages, fetch, cap); var p := Iteration(total, seen, pages[0], fetch, cap);
      && r.iterations == 1 && r.trace == p.dispatched && r.total == p.total
      && (r.reason == BudgetReached || r.reason == FeedExhausted)
  {
    var p := Iteration(total, seen, pages[0], fetch, cap);
    assert p.dispatched + [] == p.dispatched;
  }

  /** lastHeight starts at 0, so a first height reading of 0 ends the walk after
      its first iteration (unless the budget is already spent). */
  lemma FirstZeroHeightEnds(total: real, seen: set<string>, pages: seq<Page>, fetch: string -> Download, cap: real)
    requires total < cap && pages != [] && pages[0].scrollHeight == 0
    ensures var r := Walk(total, seen, 0, pages, fetch, cap); r.iterations == 1 && r.reason == FeedExhausted
  {
  }

  /** A download that reports "4.0MiB" and exits 0 adds 4 MiB and resolves. */
  lemma FourMiBDownload(d: Download)
    requires d == Download(["4.0MiB"], Some(0))
    ensures DownloadBytes(d) == 4194304.0 && Resolves(d.exitCode)
  {
    SizeParser.MiBExample("4.0MiB", '0');
    assert d.chunks[..0] == [];
  }

  lemma ScenarioLinks(a: string, b: string, c: string)
    requires IsSecure(a) && IsSecure(b) && IsSecure(c)
    requires LinkClassifier.IsMediaLink(a) && LinkClassifier.IsMediaLink(b) && LinkClassifier.IsMediaLink(c)
    ensures CandidateLinks([a, b, c]) == [a, b, c]
  {
    assert [a, b, c][1..] == [b, c] && [b, c][1..] == [c] && [c][1..] == [];
    assert Filter([c], IsSecure) == [c];
    assert Filter([b, c], IsSecure) == [b, c];
    assert Filter([a, b, c], IsSecure) == [a, b, c];
    assert Filter([c], LinkClassifier.IsMediaLink) == [c];
    assert Filter([b, c], LinkClassifier.IsMediaLink) == [b, c];
  }

  lemma ScenarioPass(a: string, b: string, c: string, fetch: string -> Download, mib: real)
    requires a != b && b != c && a != c && mib == 1048576.0
    requires DownloadBytes(fetch(a)) == 4.0 * mib && DownloadBytes(fetch(b)) == 4.0 * mib && DownloadBytes(fetch(c)) == 4.0 * mib
    requires Resolves(fetch(a).exitCode) && Resolves(fetch(b).exitCode) && Resolves(fetch(c).exitCode)
    ensures Pass(0.0, {}, [a, b, c], fetch, 10.0 * mib) == PassResult(12.0 * mib, {a, b, c},
      [Dispatch(a, true, 4.0 * mib), Dispatch(b, true, 8.0 * mib), Dispatch(c, true, 12.0 * mib)], true)
  {
    var cap := 10.0 * mib;
    assert [a, b, c][1..] == [b, c] && [b, c][1..] == [c];
    var p3 := Pass(8.0 * mib, {a, b}, [c], fetch, cap);
    assert p3 == PassResult(12.0 * mib, {a, b, c}, [Dispatch(c, true, 12.0 * mib)], true);
    var p2 := Pass(4.0 * mib, {a}, [b, c], fetch, cap);
    assert {} + {a} == {a} && {a} + {b} == {a, b} && {a, b} + {c} == {a, b, c};
    assert p2 == Prepend([Dispatch(b, true, 8.0 * mib)], p3);
    assert Pass(0.0, {}, [a, b, c], fetch, cap) == Prepend([Dispatch(a, true, 4.0 * mib)], p2);
  }

  /** With a cap of 10 MiB and three distinct media links whose downloads each
      report "4.0MiB" and exit 0, the counter reads 4, 8 and then 12 MiB: exactly
      three downloads are made and the walk stops on the budget. */
  lemma BudgetScenario(a: string, b: string, c: string, pages: seq<Page>, fetch: string -> Download)
    requires a != b && b != c && a != c
    requires forall x :: x in [a, b, c] ==> IsSecure(x) && LinkClassifier.IsMediaLink(x)
    requires forall x :: x in [a, b, c] ==> fetch(x) == Download(["4.0MiB"], Some(0))
    requires pages != [] && pages[0].hrefs == [a, b, c] && pages[0].scrollHeight != 0
    ensures var r := Walk(0.0, {}, 0, pages, fetch, 10.0 * 1048576.0);
      && r.trace == [Dispatch(a, true, 4.0 * 1048576.0), Dispatch(b, true, 8.0 * 1048576.0), Dispatch(c, true, 12.0 * 1048576.0)]
      && r.iterations == 1 && r.reason == BudgetReached
  {
    assert a in [a, b, c] && b in [a, b, c] && c in [a, b, c];
    FourMiBDownload(fetch(a));
    FourMiBDownload(fetch(b));
    FourMiBDownload(fetch(c));
    ScenarioLinks(a, b, c);
    ScenarioPass(a, b, c, fetch, 1048576.0);
    CapEndsWalk(0.0, {}, 0, pages, fetch, 10.0 * 1048576.0);
  }

  /** A rejected download never takes the budget `break`, even with the total
      already over the cap: the next link is still dispatched. */
  lemma RejectedScenario(a: string, b: string, total: real, fetch: string -> Download, cap: real)
    requires a != b && total >= cap && !Resolves(fetch(a).exitCode)
    ensures Urls(Pass(total, {}, [a, b], fetch, cap).dispatched) == [a, b]
  {
    assert [a, b][1..] == [b] && [b][1..] == [];
    assert {} + {a} == {a};
    var after := total + DownloadBytes(fetch(a));
    var p2 := Pass(after, {a}, [b], fetch, cap);
    var q := Pass(after + DownloadBytes(fetch(b)), {a} + {b}, [], fetch, cap);
    assert q.dispatched == [];
    assert b !in {a};
    assert |p2.dispatched| == 1 && p2.dispatched[0].url == b;
    var p := Pass(total, {}, [a, b], fetch, cap);
    assert p.dispatched == [Dispatch(a, false, after)] + p2.dispatched;
    assert Urls(p.dispatched)[0] == a && Urls(p.dispatched)[1] == b;
  }

  // ------------------------------------------------------ the stateful walker

  /** The walker's state: the byte total and the set of links already
      dispatched (module-level in the program) and the last scroll height. */
  class Walker {
    var totalDownloaded: real
    var downloadedLinks: set<string>
    var lastHeight: int

    /** The state at start-up: nothing downloaded, nothing seen. */
    constructor ()
      ensures totalDownloaded == 0.0 && downloadedLinks == {} && lastHeight == 0
    {
      totalDownloaded := 0.0;
      downloadedLinks := {};
      lastHeight := 0;
    }

    /** downloadFile: read the downloader's output chunk by chunk, adding each
        chunk's parsed size to the total, and resolve exactly on exit code 0. */
    method DownloadFile(url: string, fetch: string -> Download) returns (resolved: bool)
      modifies this`totalDownloaded
      ensures totalDownloaded == old(totalDownloaded) + DownloadBytes(fetch(url))
      ensures resolved == Resolves(fetch(url).exitCode)
    {
      var d := fetch(url);
      var i := 0;
      while i < |d.chunks|
        invariant 0 <= i <= |d.chunks|
        invariant totalDownloaded + ChunksBytes(d.chunks[i..]) == old(totalDownloaded) + ChunksBytes(d.chunks)
      {
        var chunk := d.chunks[i];
        assert d.chunks[i..][1..] == d.chunks[i + 1..];
        match SizeParser.ParseSize(chunk) {
          case Some(bytes) =>
            totalDownloaded := totalDownloaded + bytes;
          case None =>
        }
        i := i + 1;
      }
      resolved := d.exitCode == Some(0);
    }

    /** The inner `for` loop of one iteration over its media links. */
    method DownloadPass(links: seq<string>, fetch: string -> Download) returns (dispatched: seq<Dispatch>, broke: bool)
      modifies this`totalDownloaded, this`downloadedLinks
      ensures Pass(old(totalDownloaded), old(downloadedLinks), links, fetch, MAX_DOWNLOAD_SIZE_BYTES)
        == PassResult(totalDownloaded, downloadedLinks, dispatched, broke)
    {
      dispatched, broke := [], false;
      var i := 0;
      while i < |links|
        invariant 0 <= i <= |links|
        invariant Pass(old(totalDownloaded), old(downloadedLinks), links, fetch, MAX_DOWNLOAD_SIZE_BYTES)
          == Prepend(dispatched, Pass(totalDownloaded, downloadedLinks, links[i..], fetch, MAX_DOWNLOAD_SIZE_BYTES))
      {
        var link := links[i];
        PassStep(totalDownloaded, downloadedLinks, links[i..], fetch, MAX_DOWNLOAD_SIZE_BYTES);
        assert links[i..][0] == link && links[i..][1..] == links[i + 1..];
        if link !in downloadedLinks {
          downloadedLinks := downloadedLinks + {link};
          var ok := DownloadFile(link, fetch);
          var ev := Dispatch(link, ok, totalDownloaded);
          ghost var next := Pass(totalDownloaded, downloadedLinks, links[i + 1..], fetch, MAX_DOWNLOAD_SIZE_BYTES);
          assert dispatched + ([ev] + next.dispatched) == (dispatched + [ev]) + next.dispatched;
          dispatched := dispatched + [ev];
          if ok && totalDownloaded >= MAX_DOWNLOAD_SIZE_BYTES {
            broke := true;
            return;
          }
        }
        i := i + 1;
      }
    }

    /** run: the scroll / collect / download loop over the observed pages. */
    method Run(pages: seq<Page>, fetch: string -> Download) returns (trace: seq<Dispatch>, iterations: nat, reason: StopReason)
      modifies this
      ensures Walk(old(totalDownloaded), old(downloadedLinks), 0, pages, fetch, MAX_DOWNLOAD_SIZE_BYTES)
        == WalkResult(totalDownloaded, downloadedLinks, lastHeight, trace, iterations, reason)
    {
      lastHeight := 0;
      trace, iterations := [], 0;
      while totalDownloaded < MAX_DOWNLOAD_SIZE_BYTES && iterations < |pages|
        invariant iterations <= |pages|
        decreases |pages| - iterations
        invariant Walk(old(totalDownloaded), old(downloadedLinks), 0, pages, fetch, MAX_DOWNLOAD_SIZE_BYTES)
          == Resume(trace, iterations, Walk(totalDownloaded, downloadedLinks, lastHeight, pages[iterations..], fetch, MAX_DOWNLOAD_SIZE_BYTES))
      {
        var page := pages[iterations];
        assert pages[iterations..][1..] == pages[iterations + 1..];
        var mediaLinks := CandidateLinks(page.hrefs);
        var dispatched, _ := DownloadPass(mediaLinks, fetch);
        trace, iterations := trace + dispatched, iterations + 1;
        var newHeight := page.scrollHeight;
        if newHeight == lastHeight {
          reason := FeedExhausted;
          return;
        }
        lastHeight := newHeight;
      }
      reason := if totalDownloaded >= MAX_DOWNLOAD_SIZE_BYTES then BudgetReached else OutOfObservations;
    }
  }
}
