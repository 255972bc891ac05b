/**
 * The page-to-domain index of Utils.php: `updatePage2DomainCache` groups
 * node ids per domain into comma-terminated strings, and `getDomainOfPage`
 * searches those strings for `,<id>,`.
 */
module PageDomain {
  import opened Wrappers
  import opened PhpArray
  import opened Decimal

  /** One row of the node query: the columns Id and DomainId. */
  datatype NodeRow = NodeRow(id: nat, domainId: nat)

  /** Ids rendered one after another, each followed by a comma: "3,7,12,". */
  function Join(ids: seq<nat>): string {
    if |ids| == 0 then "" else Join(ids[..|ids| - 1]) + Dec(ids[|ids| - 1]) + ","
  }

  /** Ids of the rows that belong to domain `d`, in row order. */
  function IdsIn(rows: seq<NodeRow>, d: nat): seq<nat> {
    if |rows| == 0 then []
    else
      var n := |rows| - 1;
      IdsIn(rows[..n], d) + (if rows[n].domainId == d then [rows[n].id] else [])
  }

  /** `x` is listed for domain `d` exactly when some row of `d` has id `x`. */
  lemma {:induction false} IdsInMembers(rows: seq<NodeRow>, d: nat, x: nat)
    ensures x in IdsIn(rows, d) <==> exists i :: 0 <= i < |rows| && rows[i].domainId == d && rows[i].id == x
    decreases |rows|
  {
    if |rows| > 0 {
      var n := |rows| - 1;
      IdsInMembers(rows[..n], d, x);
      assert forall i :: 0 <= i < n ==> rows[..n][i] == rows[i];
    }
  }

  /**
   * `updatePage2DomainCache`: one entry per domain, in order of first
   * appearance, holding the comma-terminated ids of that domain's rows.
   */
  function BuildIndex(rows: seq<NodeRow>): (r: Arr<nat, string>)
    ensures DistinctKeys(r)
  {
    if |rows| == 0 then []
    else
      var n := |rows| - 1;
      var prev := BuildIndex(rows[..n]);
      var d := rows[n].domainId;
      Put(prev, d, Get(prev, d).GetOr("") + Dec(rows[n].id) + ",")
  }

  /** The entry the index holds for domain `d` lists exactly that domain's ids, in row order. */
  lemma {:induction false} BuildIndexLists(rows: seq<NodeRow>, d: nat)
    ensures Get(BuildIndex(rows), d) == if IdsIn(rows, d) == [] then None else Some(Join(IdsIn(rows, d)))
    decreases |rows|
  {
    if |rows| > 0 {
      var n := |rows| - 1;
      var last := rows[n];
      BuildIndexLists(rows[..n], d);
      if d == last.domainId {
        var before := IdsIn(rows[..n], d);
        var ids := IdsIn(rows, d);
        assert ids == before + [last.id];
        assert ids[..|ids| - 1] == before;
      } else {
        assert IdsIn(rows, d) == IdsIn(rows[..n], d);
      }
    }
  }

  /** The index has an entry for `d` exactly when some row belongs to `d`. */
  lemma BuildIndexKeys(rows: seq<NodeRow>, d: nat)
    ensures d in Keys(BuildIndex(rows)) <==> exists i :: 0 <= i < |rows| && rows[i].domainId == d
  {
    BuildIndexLists(rows, d);
    var ids := IdsIn(rows, d);
    if exists i :: 0 <= i < |rows| && rows[i].domainId == d {
      var i :| 0 <= i < |rows| && rows[i].domainId == d;
      IdsInMembers(rows, d, rows[i].id);
    }
    if ids != [] {
      IdsInMembers(rows, d, ids[0]);
    }
  }

  /** `strpos($s, $p) !== false`, with `$p` found at position `k`. */
  predicate OccursAt(s: string, p: string, k: int) {
    0 <= k && k + |p| <= |s| && forall t :: 0 <= t < |p| ==> s[k + t] == p[t]
  }

  predicate Contains(s: string, p: string) {
    exists k :: 0 <= k <= |s| - |p| && OccursAt(s, p, k)
  }

  /** The string a domain's list is searched in: `','.$pages.','`. */
  function Wrap(s: string): string {
    "," + s + ","
  }

  /** The string searched for: `','.$id.','`. */
  function Needle(id: nat): string {
    "," + Dec(id) + ","
  }

  /**
   * The loop of `getDomainOfPage`: the key of the LAST entry whose wrapped
   * list contains the needle, or None (PHP null) when no list does.
   */
  function FindDomain(index: Arr<nat, string>, id: nat): (r: Option<nat>)
    ensures r.None? <==> forall i :: 0 <= i < |index| ==> !Contains(Wrap(index[i].value), Needle(id))
    ensures r.Some? ==> exists i :: 0 <= i < |index| && index[i].key == r.value
                                    && Contains(Wrap(index[i].value), Needle(id))
                                    && forall j :: i < j < |index| ==> !Contains(Wrap(index[j].value), Needle(id))
  {
    if |index| == 0 then None
    else
      var n := |index| - 1;
      if Contains(Wrap(index[n].value), Needle(id)) then Some(index[n].key)
      else
        assert forall i :: 0 <= i < n ==> index[..n][i] == index[i];
        FindDomain(index[..n], id)
  }

  /**
   * `getDomainOfPage`: search the cached index when the cache holds an
   * array, otherwise the index rebuilt from the node rows.
   */
  function GetDomainOfPage(cached: Option<Arr<nat, string>>, rows: seq<NodeRow>, id: nat): (r: Option<nat>)
    ensures cached.None? ==> (r.None? <==> forall i :: 0 <= i < |rows| ==> rows[i].id != id)
    ensures cached.None? && r.Some? ==> exists i :: 0 <= i < |rows| && rows[i].id == id && rows[i].domainId == r.value
  {
    if cached.Some? then FindDomain(cached.value, id)
    else
      IndexRoundTrip(rows, id);
      FindDomain(BuildIndex(rows), id)
  }

  // ---- the comma-separated list holds exactly its ids ----

  /** The list with its leading comma: ",3,7,12,". */
  function Led(ids: seq<nat>): string {
    "," + Join(ids)
  }

  lemma LedShape(ids: seq<nat>)
    ensures |Led(ids)| >= 1 && Led(ids)[|Led(ids)| - 1] == ','
    ensures |ids| > 0 ==> Led(ids) == Led(ids[..|ids| - 1]) + Dec(ids[|ids| - 1]) + ","
  {
  }

  lemma ContainsExtend(s: string, t: string, p: string)
    requires Contains(s, p)
    ensures Contains(s + t, p)
  {
    var k :| 0 <= k <= |s| - |p| && OccursAt(s, p, k);
    assert OccursAt(s + t, p, k);
  }

  /** Every listed id is found. */
  lemma {:induction false} ListedIsFound(ids: seq<nat>, x: nat)
    requires x in ids
    ensures Contains(Led(ids), Needle(x))
    decreases |ids|
  {
    var n := |ids| - 1;
    var init := ids[..n];
    LedShape(ids);
    LedShape(init);
    if ids[n] == x {
      var m := |Led(init)|;
      assert OccursAt(Led(ids), Needle(x), m - 1);
    } else {
      assert x in init;
      ListedIsFound(init, x);
      ContainsExtend(Led(init), Dec(ids[n]) + ",", Needle(x));
      assert Led(init) + (Dec(ids[n]) + ",") == Led(ids);
    }
  }

  /**
   * Where `,w,` can sit in `a + d + ",,"` when `a` ends with a comma and `d`
   * and `w` are digits only: right before `d` and equal to it, or inside `a`.
   */
  lemma SplitOccurrence(a: string, d: string, w: string, k: int)
    requires |a| >= 1 && a[|a| - 1] == ','
    requires forall t :: 0 <= t < |d| ==> IsDigit(d[t])
    requires |w| >= 1 && forall t :: 0 <= t < |w| ==> IsDigit(w[t])
    requires OccursAt(a + d + ",,", "," + w + ",", k)
    ensures (k == |a| - 1 && w == d) || OccursAt(a, "," + w + ",", k)
  {
    var s := a + d + ",,";
    var p := "," + w + ",";
    var m := |a|;
    var e := k + 1 + |w|;
    assert s[k] == ',' by { assert p[0] == ','; }
    assert s[e] == ',' by { assert p[1 + |w|] == ','; }
    assert forall i :: k + 1 <= i < e ==> s[i] == w[i - k - 1] by {
      forall i | k + 1 <= i < e ensures s[i] == w[i - k - 1] { assert p[i - k] == w[i - k - 1]; }
    }
    assert forall i :: 0 <= i < m ==> s[i] == a[i];
    assert forall i :: m <= i < m + |d| ==> s[i] == d[i - m];
    assert s[m - 1] == ',' && s[m + |d|] == ',' && s[m + |d| + 1] == ',';
    assert s[e - 1] == w[|w| - 1];
    assert e != m + |d| + 1;
    assert !(m <= e < m + |d|);
    if e < m {
      assert OccursAt(a, p, k);
    } else {
      assert e == m + |d|;
      assert k < m;
      assert k >= m - 1;
      assert |w| == |d|;
      forall t | 0 <= t < |w| ensures w[t] == d[t] {
        assert s[k + 1 + t] == w[t];
        assert s[m + t] == d[t];
      }
    }
  }

  /** A comma-free run of digits found between two commas is one of the listed ids. */
  lemma {:induction false} FoundIsListed(ids: seq<nat>, w: string)
    requires |w| >= 1 && forall t :: 0 <= t < |w| ==> IsDigit(w[t])
    requires Contains(Led(ids) + ",", "," + w + ",")
    ensures exists x :: x in ids && Dec(x) == w
    decreases |ids|
  {
    var p := "," + w + ",";
    var k :| 0 <= k <= |Led(ids) + ","| - |p| && OccursAt(Led(ids) + ",", p, k);
    if |ids| == 0 {
      assert false;
    } else {
      var n := |ids| - 1;
      var init := ids[..n];
      LedShape(ids);
      LedShape(init);
      assert Led(ids) + "," == Led(init) + Dec(ids[n]) + ",,";
      SplitOccurrence(Led(init), Dec(ids[n]), w, k);
      if w == Dec(ids[n]) {
        assert ids[n] in ids;
      } else {
        ContainsExtend(Led(init), ",", p);
        FoundIsListed(init, w);
        var x :| x in init && Dec(x) == w;
        assert x in ids;
      }
    }
  }

  /** `,<x>,` occurs in the wrapped list exactly when `x` is one of its ids. */
  lemma ListContainsExactly(ids: seq<nat>, x: nat)
    ensures Contains(Wrap(Join(ids)), Needle(x)) <==> x in ids
  {
    assert Wrap(Join(ids)) == Led(ids) + ",";
    if x in ids {
      ListedIsFound(ids, x);
      ContainsExtend(Led(ids), ",", Needle(x));
    }
    if Contains(Wrap(Join(ids)), Needle(x)) {
      FoundIsListed(ids, Dec(x));
      var y :| y in ids && Dec(y) == Dec(x);
      DecInjective(y, x);
    }
  }

  /** Every entry of the built index lists the ids of its domain, and nothing else. */
  lemma IndexEntry(rows: seq<NodeRow>, id: nat, i: nat)
    requires i < |BuildIndex(rows)|
    ensures Contains(Wrap(BuildIndex(rows)[i].value), Needle(id)) <==> id in IdsIn(rows, BuildIndex(rows)[i].key)
  {
    var index := BuildIndex(rows);
    GetAt(index, i);
    BuildIndexLists(rows, index[i].key);
    ListContainsExactly(IdsIn(rows, index[i].key), id);
  }

  /**
   * Round trip of the index: searching the index built from `rows` finds a
   * domain holding a row with that id, and finds nothing exactly when no
   * row has the id.
   */
  lemma IndexRoundTrip(rows: seq<NodeRow>, id: nat)
    ensures FindDomain(BuildIndex(rows), id).None? <==> forall i :: 0 <= i < |rows| ==> rows[i].id != id
    ensures FindDomain(BuildIndex(rows), id).Some? ==>
      exists i :: 0 <= i < |rows| && rows[i].id == id && rows[i].domainId == FindDomain(BuildIndex(rows), id).value
  {
    var index := BuildIndex(rows);
    var r := FindDomain(index, id);
    if r.Some? {
      var i :| 0 <= i < |index| && index[i].key == r.value && Contains(Wrap(index[i].value), Needle(id));
      IndexEntry(rows, id, i);
      IdsInMembers(rows, r.value, id);
    }
    if exists i :: 0 <= i < |rows| && rows[i].id == id {
      var i :| 0 <= i < |rows| && rows[i].id == id;
      var d := rows[i].domainId;
      IdsInMembers(rows, d, id);
      BuildIndexLists(rows, d);
      assert Get(index, d).Some?;
      var j :| 0 <= j < |index| && index[j].key == d && index[j].value == Get(index, d).value;
      IndexEntry(rows, id, j);
      assert Contains(Wrap(index[j].value), Needle(id));
    }
  }

  /** When every row with this id lies in domain `d`, the lookup answers `d`. */
  lemma SingleDomainIsFound(rows: seq<NodeRow>, id: nat, d: nat)
    requires exists i :: 0 <= i < |rows| && rows[i].id == id
    requires forall i :: 0 <= i < |rows| && rows[i].id == id ==> rows[i].domainId == d
    ensures GetDomainOfPage(None, rows, id) == Some(d)
  {
    IndexRoundTrip(rows, id);
  }
}
