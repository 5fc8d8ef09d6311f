// host: the resource node that answers a request is the one mounted at the longest prefix of its url.
module Routing {
  import opened Text

  // NotFound: 404. Undefined: the end iterator is dereferenced. Throws: substr does.
  datatype Route = NotFound | To(mount: string, url: string) | Undefined | Throws

  const NO_MATCH: string := "<default>"

  // starts_with
  predicate StartsWith(url: string, mount: string) {
    mount <= url
  }

  ghost predicate Matched(mounts: set<string>, url: string) {
    exists k :: k in mounts && StartsWith(url, k)
  }

  ghost predicate IsLongest(mounts: set<string>, url: string, m: string) {
    m in mounts && StartsWith(url, m) && forall k :: k in mounts && StartsWith(url, k) ==> |k| <= |m|
  }

  // The node looked up by its mount, and the url it is handed: what follows the mount, but the whole
  // url for "/".
  function Deliver(mounts: set<string>, url: string, m: string): Route {
    if m !in mounts then Undefined
    else
      match Substr(url, |m|, Wrap(|url| - |m|))
      case None => Throws
      case Some(rest) => To(m, if m != "/" then rest else url)
  }

  // The reference: it knows the mounts as a set.
  ghost function RouteOf(mounts: set<string>, url: string): Route {
    if !Matched(mounts, url) then NotFound
    else if exists m :: m != "" && IsLongest(mounts, url, m) then
      var m :| m != "" && IsLongest(mounts, url, m);
      Deliver(mounts, url, m)
    else Deliver(mounts, url, NO_MATCH)
  }

  // Of two prefixes of one url of the same length there is only one.
  lemma LongestIsUnique(mounts: set<string>, url: string, m: string, n: string)
    requires IsLongest(mounts, url, m) && IsLongest(mounts, url, n)
    ensures m == n
  {
    assert m == url[..|m|] && n == url[..|n|];
  }

  // What the scan knows after some of the mounts.
  ghost predicate Scanned(seen: seq<string>, url: string, matched: bool, best: string, size: nat) {
    && (matched <==> exists k :: k in seen && StartsWith(url, k))
    && (forall k :: k in seen && StartsWith(url, k) ==> |k| <= size)
    && (size == 0 ==> best == NO_MATCH)
    && (size > 0 ==> best in seen && StartsWith(url, best) && |best| == size)
  }

  lemma ScanOne(seen: seq<string>, k: string, url: string, matched: bool, best: string, size: nat)
    requires Scanned(seen, url, matched, best, size)
    ensures StartsWith(url, k) && |k| > size ==> Scanned(seen + [k], url, true, k, |k|)
    ensures StartsWith(url, k) && |k| <= size ==> Scanned(seen + [k], url, true, best, size)
    ensures !StartsWith(url, k) ==> Scanned(seen + [k], url, matched, best, size)
  {
  }

  lemma ScanIsRoute(mounts: set<string>, order: seq<string>, url: string, matched: bool, best: string, size: nat)
    requires (forall k :: k in order <==> k in mounts) && Scanned(order, url, matched, best, size)
    ensures RouteOf(mounts, url) == if matched then Deliver(mounts, url, best) else NotFound
  {
    if size > 0 {
      assert IsLongest(mounts, url, best);
      assert Matched(mounts, url);
      forall m | IsLongest(mounts, url, m) ensures m == best { LongestIsUnique(mounts, url, m, best); }
    } else if matched {
      forall m | IsLongest(mounts, url, m) ensures m == "" { assert m in order; }
    }
  }

  // The selection loop.
  method Select(order: seq<string>, url: string) returns (matched: bool, best: string, size: nat)
    ensures Scanned(order, url, matched, best, size)
  {
    matched, best, size := false, NO_MATCH, 0;
    for i := 0 to |order|
      invariant Scanned(order[..i], url, matched, best, size)
    {
      ScanOne(order[..i], order[i], url, matched, best, size);
      assert order[..i + 1] == order[..i] + [order[i]];
      if StartsWith(url, order[i]) {
        matched := true;
        if |order[i]| > size {
          best, size := order[i], |order[i]|;
        }
      }
    }
    assert order[..|order|] == order;
  }

  // async_request, for any of the orders in which the hash map may list its mounts. "/" stands for the
  // default url.
  method AsyncRequest(url: string, default: string, mounts: set<string>, order: seq<string>) returns (route: Route)
    requires forall k :: k in order <==> k in mounts
    ensures route == RouteOf(mounts, if url == "/" then default else url)
  {
    var u := if url == "/" then default else url;
    var matched, best, size := Select(order, u);
    ScanIsRoute(mounts, order, u, matched, best, size);
    if !matched {
      return NotFound;
    }
    route := Deliver(mounts, u, best);
  }

  // An empty mount is the only one that starts the url.
  ghost predicate OnlyEmpty(mounts: set<string>, url: string) {
    "" in mounts && forall k :: k in mounts && StartsWith(url, k) ==> k == ""
  }

  // A url that some mount starts goes to the longest of them exactly if that is not the empty one, the
  // loop's longest length being 0 from the start.
  lemma RoutesToLongestIff(mounts: set<string>, url: string)
    requires |url| < TWO_63
    ensures var r := RouteOf(mounts, url);
            (Matched(mounts, url) ==> r.To? && IsLongest(mounts, url, r.mount)) <==> !OnlyEmpty(mounts, url)
  {
    if OnlyEmpty(mounts, url) {
      EmptyMountIsLost(mounts, url);
    } else if Matched(mounts, url) {
      RoutesToLongest(mounts, url);
    }
  }

  // Then the route goes to m exactly if m is the longest mount that starts the url; there is none exactly
  // if no mount does; and mount and sub-url make up the url, but for "/", which hands on all of it.
  lemma RoutesToLongest(mounts: set<string>, url: string)
    requires |url| < TWO_63 && !OnlyEmpty(mounts, url)
    ensures var r := RouteOf(mounts, url);
            && (r == NotFound <==> !Matched(mounts, url))
            && (r.To? <==> Matched(mounts, url))
            && (forall m :: IsLongest(mounts, url, m) <==> r.To? && r.mount == m)
            && (r.To? ==> if r.mount == "/" then r.url == url else r.mount + r.url == url)
  {
    if Matched(mounts, url) {
      var k :| k in mounts && StartsWith(url, k) && k != "";
      var m := LongestExists(mounts, url, k);
      assert m != "" && IsLongest(mounts, url, m);
      forall n | IsLongest(mounts, url, n) ensures n == m { LongestIsUnique(mounts, url, n, m); }
      assert url == m + url[|m|..];
    }
  }

  lemma LongestExists(mounts: set<string>, url: string, k: string) returns (m: string)
    requires k in mounts && StartsWith(url, k)
    ensures IsLongest(mounts, url, m) && |m| >= |k|
    decreases |url| - |k|
  {
    if n :| n in mounts && StartsWith(url, n) && |n| > |k| {
      m := LongestExists(mounts, url, n);
    } else {
      m := k;
    }
  }

  // If only an empty mount starts the url, what is looked up is the name of no match: no node, or one
  // mounted under that name, which is handed the url without its first nine characters.
  lemma EmptyMountIsLost(mounts: set<string>, url: string)
    requires |url| < TWO_63 && OnlyEmpty(mounts, url)
    ensures RouteOf(mounts, url) ==
            if "<default>" !in mounts then Undefined
            else if |url| < 9 then Throws
            else To("<default>", url[9..])
    ensures "<default>" in mounts ==> !StartsWith(url, "<default>")
  {
    assert StartsWith(url, "");
    forall m | IsLongest(mounts, url, m) ensures m == "" { }
  }

  // Tables that go wrong, and one with an empty mount that does not.
  lemma EmptyMountTables()
    ensures RouteOf({""}, "/x") == Undefined
    ensures RouteOf({"", NO_MATCH}, "/x") == Throws
    ensures RouteOf({"", "/x"}, "/x/y") == To("/x", "/y")
  {
    assert NO_MATCH[0] != "/x"[0] && !StartsWith("/x", NO_MATCH);
    EmptyMountIsLost({""}, "/x");
    EmptyMountIsLost({"", NO_MATCH}, "/x");
    var mounts, url := {"", "/x"}, "/x/y";
    assert url[..2] == "/x" && StartsWith(url, "/x") && "/x" in mounts && "/x" != "";
    assert IsLongest(mounts, url, "/x");
    RoutesToLongest(mounts, url);
    assert "/x" + "/y" == url && |RouteOf(mounts, url).url| == 2;
    assert RouteOf(mounts, url).url == url[2..] == "/y";
  }
}
