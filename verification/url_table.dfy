/**
 * The miss path of `getCachedUrlToPage` and `getCachedPageToUrl` in
 * Utils.php: one pass over a domain's nodes in branch order that builds the
 * map from URL path to page id, keeping the last URL seen per tree level,
 * and its `array_flip`.
 */
module UrlTable {
  import opened Wrappers
  import opened PhpArray

  /** Level of the domain's root node. */
  const RootLevel: int := 0
  /** Node type of a folder: it contributes no URL segment. */
  const FolderType: int := 2
  /** Node type of a deposit: skipped entirely. */
  const DepositType: int := 3

  /** One row of the node query: the columns id, urn, lvl and type. A null urn is "". */
  datatype Node = Node(id: nat, urn: string, lvl: int, kind: int)

  /** The loop's variables: `$urls` and `$level` (last path per level). */
  datatype Flattening = Flattening(urls: Arr<string, nat>, level: map<int, string>)

  /** Roots and deposits are passed over by `continue` before anything is recorded. */
  predicate Skipped(n: Node) {
    n.lvl == RootLevel || n.kind == DepositType
  }

  /** Nodes that get a URL of their own. */
  predicate AddsUrl(n: Node) {
    !Skipped(n) && n.kind != FolderType && n.urn != ""
  }

  /** `isset($level[$lvl - 1]) ? $level[$lvl - 1] : ''`. */
  function ParentPrefix(level: map<int, string>, lvl: int): string {
    if lvl - 1 in level then level[lvl - 1] else ""
  }

  /** One iteration of the `foreach ($nodes as $node)` loop. */
  function Visit(st: Flattening, n: Node): (r: Flattening)
    ensures Skipped(n) ==> r == st
    ensures !AddsUrl(n) ==> r.urls == st.urls
    // only the entry of the node's own level is written
    ensures !Skipped(n) ==> n.lvl in r.level && r.level == st.level[n.lvl := r.level[n.lvl]]
    ensures !Skipped(n) && !AddsUrl(n) ==> r.level[n.lvl] == ParentPrefix(st.level, n.lvl)
    ensures AddsUrl(n) ==>
      r.level[n.lvl] == ParentPrefix(st.level, n.lvl) + "/" + n.urn
      && Get(r.urls, r.level[n.lvl]) == Some(n.id)
      && forall u :: u != r.level[n.lvl] ==> Get(r.urls, u) == Get(st.urls, u)
    ensures DistinctKeys(st.urls) ==> DistinctKeys(r.urls)
  {
    if Skipped(n) then st
    else if n.kind == FolderType || n.urn == "" then
      Flattening(st.urls, st.level[n.lvl := ParentPrefix(st.level, n.lvl)])
    else
      var url := ParentPrefix(st.level, n.lvl) + "/" + n.urn;
      Flattening(Put(st.urls, url, n.id), st.level[n.lvl := url])
  }

  /** The loop's variables after the first `k` nodes. */
  function FlattenUpTo(nodes: seq<Node>, k: nat): (r: Flattening)
    requires k <= |nodes|
    ensures DistinctKeys(r.urls)
  {
    if k == 0 then Flattening([], map[]) else Visit(FlattenUpTo(nodes, k - 1), nodes[k - 1])
  }

  /** `getCachedUrlToPage` on a cache miss: URL path -> page id. */
  function UrlToPage(nodes: seq<Node>): Arr<string, nat> {
    FlattenUpTo(nodes, |nodes|).urls
  }

  /**
   * `getCachedPageToUrl`: page id -> URL path. Its ids are exactly the URL
   * map's values, each mapped to the last URL that carries it.
   */
  function PageToUrl(nodes: seq<Node>): (r: Arr<nat, string>)
    ensures DistinctKeys(r)
    ensures forall id :: id in Keys(r) <==> exists i :: 0 <= i < |UrlToPage(nodes)| && UrlToPage(nodes)[i].value == id
  {
    Flip(UrlToPage(nodes))
  }

  // ---- reference: a node's path read off the node list directly ----

  /** The last node before position `i` on level `l` that the loop does not skip. */
  function LastAt(nodes: seq<Node>, i: nat, l: int): (r: Option<nat>)
    requires i <= |nodes|
    ensures r.Some? ==> r.value < i && !Skipped(nodes[r.value]) && nodes[r.value].lvl == l
    ensures r.Some? ==> forall j :: r.value < j < i ==> Skipped(nodes[j]) || nodes[j].lvl != l
    ensures r.None? ==> forall j :: 0 <= j < i ==> Skipped(nodes[j]) || nodes[j].lvl != l
  {
    if i == 0 then None
    else if !Skipped(nodes[i - 1]) && nodes[i - 1].lvl == l then Some(i - 1)
    else LastAt(nodes, i - 1, l)
  }

  /** The path node `i` hangs under: that of the last unskipped node one level up, or "". */
  function PrefixAt(nodes: seq<Node>, i: nat): string
    requires i < |nodes|
    decreases i, 0
  {
    match LastAt(nodes, i, nodes[i].lvl - 1)
    case None => ""
    case Some(j) => PathOf(nodes, j)
  }

  /** The path of node `j`: its prefix, extended by `/urn` when the node has a URL. */
  function PathOf(nodes: seq<Node>, j: nat): string
    requires j < |nodes|
    decreases j, 1
  {
    if AddsUrl(nodes[j]) then PrefixAt(nodes, j) + "/" + nodes[j].urn else PrefixAt(nodes, j)
  }

  /** The last node among the first `k` whose URL is `u`. */
  function Owner(nodes: seq<Node>, k: nat, u: string): (r: Option<nat>)
    requires k <= |nodes|
    ensures r.Some? ==> r.value < k && AddsUrl(nodes[r.value]) && PathOf(nodes, r.value) == u
    ensures r.Some? ==> forall j :: r.value < j < k ==> !(AddsUrl(nodes[j]) && PathOf(nodes, j) == u)
    ensures r.None? ==> forall j :: 0 <= j < k ==> !(AddsUrl(nodes[j]) && PathOf(nodes, j) == u)
  {
    if k == 0 then None
    else if AddsUrl(nodes[k - 1]) && PathOf(nodes, k - 1) == u then Some(k - 1)
    else Owner(nodes, k - 1, u)
  }

  function IdOf(nodes: seq<Node>, o: Option<nat>): Option<nat>
    requires o.Some? ==> o.value < |nodes|
  {
    match o
    case None => None
    case Some(i) => Some(nodes[i].id)
  }

  /**
   * The single pass agrees with the reference after every prefix: the
   * level table holds the path of the last unskipped node of each level,
   * and each URL maps to the id of the last node with that path.
   */
  lemma {:induction false} FlattenInvariant(nodes: seq<Node>, k: nat)
    requires k <= |nodes|
    ensures forall l :: l in FlattenUpTo(nodes, k).level <==> LastAt(nodes, k, l).Some?
    ensures forall l :: l in FlattenUpTo(nodes, k).level ==>
      FlattenUpTo(nodes, k).level[l] == PathOf(nodes, LastAt(nodes, k, l).value)
    ensures forall u :: Get(FlattenUpTo(nodes, k).urls, u) == IdOf(nodes, Owner(nodes, k, u))
  {
    if k > 0 {
      FlattenInvariant(nodes, k - 1);
      var st := FlattenUpTo(nodes, k - 1);
      var n := nodes[k - 1];
      var r := FlattenUpTo(nodes, k);
      assert r == Visit(st, n);
      if !Skipped(n) {
        assert ParentPrefix(st.level, n.lvl) == PrefixAt(nodes, k - 1);
        assert r.level[n.lvl] == PathOf(nodes, k - 1);
      }
    }
  }

  /**
   * What `getCachedUrlToPage` returns: a URL is present exactly when some
   * node has it as its path, and it maps to the id of the last such node.
   */
  lemma UrlToPageSpec(nodes: seq<Node>, u: string)
    ensures Get(UrlToPage(nodes), u).Some? <==>
      exists i :: 0 <= i < |nodes| && AddsUrl(nodes[i]) && PathOf(nodes, i) == u
    ensures Get(UrlToPage(nodes), u).Some? ==>
      exists i :: 0 <= i < |nodes| && AddsUrl(nodes[i]) && PathOf(nodes, i) == u
                  && nodes[i].id == Get(UrlToPage(nodes), u).value
                  && forall j :: i < j < |nodes| ==> !(AddsUrl(nodes[j]) && PathOf(nodes, j) == u)
  {
    FlattenInvariant(nodes, |nodes|);
  }

  /** Paths are empty or start with a slash. */
  lemma {:induction false} PathShape(nodes: seq<Node>, j: nat)
    requires j < |nodes|
    ensures PathOf(nodes, j) == "" || PathOf(nodes, j)[0] == '/'
    ensures AddsUrl(nodes[j]) ==> |PathOf(nodes, j)| >= 1 && PathOf(nodes, j)[0] == '/'
    decreases j, 1
  {
    PrefixShape(nodes, j);
  }

  lemma {:induction false} PrefixShape(nodes: seq<Node>, i: nat)
    requires i < |nodes|
    ensures PrefixAt(nodes, i) == "" || PrefixAt(nodes, i)[0] == '/'
    decreases i, 0
  {
    match LastAt(nodes, i, nodes[i].lvl - 1)
    case None =>
    case Some(j) => PathShape(nodes, j);
  }

  predicate EndsWith(s: string, t: string) {
    |t| <= |s| && s[|s| - |t|..] == t
  }

  /**
   * Every key of the URL map starts with `/` and ends with `/` and the urn
   * of the node whose id it maps to.
   */
  lemma UrlKeysShape(nodes: seq<Node>, i: nat)
    requires i < |UrlToPage(nodes)|
    ensures var e := UrlToPage(nodes)[i];
            |e.key| >= 1 && e.key[0] == '/'
            && exists j :: 0 <= j < |nodes| && AddsUrl(nodes[j]) && nodes[j].id == e.value
                           && EndsWith(e.key, "/" + nodes[j].urn)
  {
    var e := UrlToPage(nodes)[i];
    GetAt(UrlToPage(nodes), i);
    FlattenInvariant(nodes, |nodes|);
    var j := Owner(nodes, |nodes|, e.key).value;
    PathShape(nodes, j);
    var tail := "/" + nodes[j].urn;
    assert e.key == PrefixAt(nodes, j) + tail;
    assert e.key[|e.key| - |tail|..] == tail;
  }

  /**
   * `getCachedPageToUrl` is the flip of the URL map: its ids are exactly
   * the URL map's values, and each id maps to a URL that the URL map sends
   * back to that id.
   */
  lemma PageToUrlRoundTrip(nodes: seq<Node>, id: nat)
    ensures id in Keys(PageToUrl(nodes)) <==> exists i :: 0 <= i < |UrlToPage(nodes)| && UrlToPage(nodes)[i].value == id
    ensures id in Keys(PageToUrl(nodes)) ==> Get(UrlToPage(nodes), Get(PageToUrl(nodes), id).value) == Some(id)
  {
    if id in Keys(PageToUrl(nodes)) {
      FlipRoundTrip(UrlToPage(nodes), id);
    }
  }

  /**
   * A child of a deposit takes its prefix from the level table's entry for
   * the deposit's level, since the deposit never enters that table. The
   * entry belongs to the last non-root, non-deposit node on that level (a
   * folder or a node with an empty urn stores its own parent prefix there).
   */
  lemma DepositChildExample()
    ensures var nodes := [Node(1, "about", 1, 0), Node(2, "store", 1, DepositType), Node(3, "box", 2, 0)];
            PathOf(nodes, 2) == "/about/box"
            && Get(UrlToPage(nodes), "/about/box") == Some(3)
  {
    var nodes := [Node(1, "about", 1, 0), Node(2, "store", 1, DepositType), Node(3, "box", 2, 0)];
    assert LastAt(nodes, 2, 1) == Some(0);
    assert LastAt(nodes, 0, 0) == None;
    assert PathOf(nodes, 0) == "/about";
    assert PathOf(nodes, 2) == "/about/box";
    UrlToPageSpec(nodes, "/about/box");
  }
}
