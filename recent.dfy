/**
 * src/smart_directory.rs: the bounded list of recently viewed images.
 * `add_item` bumps the view count of a path already listed (in place, without
 * moving it), otherwise appends the path and, past `max_items`, drops the
 * item at index 0 — the one added first, however recently it was viewed.
 */
module SmartDirectory {
  import opened Wrappers
  import opened Paths

  /** A recency entry; timestamps and the file size read from disk are not modelled. */
  datatype RecentItem = RecentItem(path: Path, viewCount: nat) {

    /** `RecentItem::name`: the path's file name, or "Unknown" when it has none. */
    function Name(): (n: string)
      ensures FileName(path).Some? ==> n == FileName(path).value
      ensures FileName(path).None? ==> n == "Unknown"
      ensures n != "" && '/' !in n
    {
      FileName(path).GetOr("Unknown")
    }
  }

  function PathsOf(items: seq<RecentItem>): (ps: seq<Path>)
    ensures |ps| == |items|
    ensures forall i :: 0 <= i < |items| ==> ps[i] == items[i].path
  {
    if items == [] then [] else [items[0].path] + PathsOf(items[1..])
  }

  predicate Distinct(items: seq<RecentItem>) {
    forall i, j :: 0 <= i < j < |items| ==> items[i].path != items[j].path
  }

  /**
   * `iter().position(|item| item.path == path)`: the index of the first item
   * with that path, or `|items|` when there is none.
   */
  function IndexOf(items: seq<RecentItem>, p: Path): (k: nat)
    ensures k <= |items|
    ensures k < |items| ==> items[k].path == p
    ensures forall j :: 0 <= j < k ==> items[j].path != p
  {
    if items == [] then 0
    else if items[0].path == p then 0
    else 1 + IndexOf(items[1..], p)
  }

  /** The list `add_item(p)` leaves behind, for a list bounded by `maxItems`. */
  function Added(items: seq<RecentItem>, maxItems: nat, p: Path): (r: seq<RecentItem>)
    ensures |r| <= |items| + 1
    ensures maxItems >= 1 ==> exists k :: 0 <= k < |r| && r[k].path == p
  {
    var k := IndexOf(items, p);
    if k < |items| then
      var r := items[k := items[k].(viewCount := items[k].viewCount + 1)];
      assert r[k].path == p;
      r
    else
      var pushed := items + [RecentItem(p, 1)];
      var r := if |pushed| > maxItems then pushed[1..] else pushed;
      assert maxItems >= 1 ==> r[|r| - 1].path == p;
      r
  }

  /** Viewing a listed path again bumps its count only: same length, same order, same paths. */
  lemma AddedRevisit(items: seq<RecentItem>, maxItems: nat, p: Path, k: nat)
    requires k < |items| && items[k].path == p && Distinct(items)
    ensures var r := Added(items, maxItems, p);
      && |r| == |items| && PathsOf(r) == PathsOf(items)
      && r[k].viewCount == items[k].viewCount + 1
      && forall j :: 0 <= j < |items| && j != k ==> r[j] == items[j]
  {
    assert IndexOf(items, p) == k;
  }

  /** A new path is appended with one view; past the bound, exactly the first item goes. */
  lemma AddedNew(items: seq<RecentItem>, maxItems: nat, p: Path)
    requires p !in PathsOf(items)
    ensures var r := Added(items, maxItems, p);
      && (|items| < maxItems ==> r == items + [RecentItem(p, 1)])
      && (|items| >= maxItems ==> r == (items + [RecentItem(p, 1)])[1..])
      && (maxItems >= 1 ==> |r| > 0 && r[|r| - 1] == RecentItem(p, 1))
  {
    NotListed(items, p);
  }

  lemma NotListed(items: seq<RecentItem>, p: Path)
    requires p !in PathsOf(items)
    ensures IndexOf(items, p) == |items|
  {
  }

  /** `add_item` keeps the list within `max_items` and its paths distinct. */
  lemma AddedKeepsInvariant(items: seq<RecentItem>, maxItems: nat, p: Path)
    requires |items| <= maxItems && Distinct(items)
    ensures |Added(items, maxItems, p)| <= maxItems
    ensures Distinct(Added(items, maxItems, p))
  {
    var k := IndexOf(items, p);
    if k == |items| {
      var pushed := items + [RecentItem(p, 1)];
      assert Distinct(pushed);
    }
  }

  /**
   * Eviction is by order of first addition: re-viewing the oldest item of a
   * full list and then adding a new path still evicts that oldest item.
   */
  lemma RevisitDoesNotProtect(items: seq<RecentItem>, p: Path, q: Path)
    requires |items| > 0 && Distinct(items) && items[0].path == p
    requires q !in PathsOf(items)
    ensures var r := Added(Added(items, |items|, p), |items|, q);
      && PathsOf(r) == PathsOf(items)[1..] + [q]
      && p !in PathsOf(r)
  {
    var n := |items|;
    var once := Added(items, n, p);
    AddedRevisit(items, n, p, 0);
    AddedNew(once, n, q);
    var r := Added(once, n, q);
    assert r == (once + [RecentItem(q, 1)])[1..];
    PathsAfterEviction(once, RecentItem(q, 1));
    assert PathsOf(items)[0] == p;
    assert p !in PathsOf(items)[1..] by {
      forall j | 0 <= j < n - 1 ensures PathsOf(items)[1..][j] != p {
        assert PathsOf(items)[1..][j] == items[j + 1].path;
      }
    }
  }

  /** The paths left once the first item is dropped and `x` appended. */
  lemma PathsAfterEviction(s: seq<RecentItem>, x: RecentItem)
    requires |s| > 0
    ensures PathsOf((s + [x])[1..]) == PathsOf(s)[1..] + [x.path]
  {
    var t := (s + [x])[1..];
    var a, b := PathsOf(t), PathsOf(s)[1..] + [x.path];
    assert |a| == |b|;
    forall j | 0 <= j < |a| ensures a[j] == b[j] {
      if j < |t| - 1 {
        assert t[j] == s[j + 1];
        assert b[j] == PathsOf(s)[j + 1];
      } else {
        assert t[j] == x;
      }
    }
    assert a == b;
  }

  /** `search`: the first index holding `p`, as Rust's `position`. */
  method Position(items: seq<RecentItem>, p: Path) returns (found: Option<nat>)
    ensures found.Some? <==> p in PathsOf(items)
    ensures found.Some? ==> found.value == IndexOf(items, p)
  {
    var i := 0;
    while i < |items|
      invariant 0 <= i <= |items|
      invariant forall j :: 0 <= j < i ==> items[j].path != p
    {
      if items[i].path == p {
        assert IndexOf(items, p) == i;
        assert PathsOf(items)[i] == p;
        return Some(i);
      }
      i := i + 1;
    }
    return None;
  }

  /** `RecentManager`: the list and its bound, updated in place by `add_item`. */
  class RecentManager {
    var recentItems: seq<RecentItem>
    var maxItems: nat

    ghost predicate Valid()
      reads this
    {
      |recentItems| <= maxItems && Distinct(recentItems)
    }

    /** `RecentManager::new(max_items)`: no items yet. */
    constructor (maxItems: nat)
      ensures Valid()
      ensures recentItems == [] && this.maxItems == maxItems
    {
      recentItems := [];
      this.maxItems := maxItems;
    }

    /** `add_item`: bump a listed path, or append a new one and evict index 0 on overflow. */
    method AddItem(p: Path)
      requires Valid()
      modifies this
      ensures Valid()
      ensures maxItems == old(maxItems)
      ensures recentItems == Added(old(recentItems), maxItems, p)
    {
      var items := recentItems;
      var index := Position(items, p);
      if index.Some? {
        var k := index.value;
        items := items[k := items[k].(viewCount := items[k].viewCount + 1)];
      } else {
        NotListed(items, p);
        items := items + [RecentItem(p, 1)];
        if |items| > maxItems {
          items := items[1..];
        }
      }
      assert items == Added(recentItems, maxItems, p);
      AddedKeepsInvariant(recentItems, maxItems, p);
      recentItems := items;
    }

    /** `get_recent_items`. */
    method GetRecentItems() returns (items: seq<RecentItem>)
      ensures items == recentItems
    {
      items := recentItems;
    }
  }
}
