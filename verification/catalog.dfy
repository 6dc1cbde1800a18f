/** The catalogue records and the two read queries of `lib.rs`, over the
    `works` and `tracks` tables held as sequences of rows. */
module Catalog {
  import opened Common
  import opened Text

  /** A row of `works` as the front end sees it. */
  datatype Work = Work(id: int, rjCode: Option<string>, title: string, dirPath: string, coverPath: Option<string>)

  /** A stored `works` row: the record plus its `created_at` column. */
  datatype WorkRow = WorkRow(work: Work, createdAt: int)

  /** A row of `tracks`. */
  datatype Track = Track(id: int, workId: int, title: string, path: string, durationSec: int)

  const GreetingHead := "Hello, "
  const GreetingTail := "! You've been greeted from Rust!"

  /** `greet`: the name stands between the fixed head and tail, so it can be read back. */
  function Greet(name: string): (r: string)
    ensures |r| == |GreetingHead| + |name| + |GreetingTail|
    ensures r[..|GreetingHead|] == GreetingHead && r[|r| - |GreetingTail|..] == GreetingTail
    ensures r[|GreetingHead|..|r| - |GreetingTail|] == name
  {
    GreetingHead + name + GreetingTail
  }

  // ---------------------------------------------------------------------
  // ORDER BY: a sort by a total preorder

  ghost predicate TotalPreorder<T(!new)>(le: (T, T) -> bool) {
    (forall a, b :: le(a, b) || le(b, a)) &&
    (forall a, b, c :: le(a, b) && le(b, c) ==> le(a, c))
  }

  predicate SortedBy<T>(s: seq<T>, le: (T, T) -> bool) {
    forall i, j :: 0 <= i < j < |s| ==> le(s[i], s[j])
  }

  /** Putting in front an element `le`-below every element keeps a sequence sorted. */
  lemma ConsSorted<T>(h: T, s: seq<T>, le: (T, T) -> bool)
    requires SortedBy(s, le)
    requires forall k :: 0 <= k < |s| ==> le(h, s[k])
    ensures SortedBy([h] + s, le)
  {
    forall i, j | 0 <= i < j < |[h] + s| ensures le(([h] + s)[i], ([h] + s)[j]) {
      assert ([h] + s)[j] == s[j - 1];
      if i > 0 {
        assert ([h] + s)[i] == s[i - 1];
      }
    }
  }

  /** The head of a sorted sequence is `le`-below `x` and every element of the tail,
      so it is below whatever inserting `x` into the tail produces. */
  lemma HeadBelowInserted<T(!new)>(s: seq<T>, x: T, rest: seq<T>, le: (T, T) -> bool)
    requires TotalPreorder(le) && SortedBy(s, le) && s != []
    requires !le(x, s[0])
    requires forall k :: 0 <= k < |rest| ==> rest[k] == x || rest[k] in s[1..]
    ensures forall k :: 0 <= k < |rest| ==> le(s[0], rest[k])
  {
    forall k | 0 <= k < |rest| ensures le(s[0], rest[k]) {
      if rest[k] != x {
        var m :| 0 <= m < |s[1..]| && s[1..][m] == rest[k];
        assert s[m + 1] == rest[k];
      }
    }
  }

  function InsertBy<T(!new)>(x: T, s: seq<T>, le: (T, T) -> bool): (r: seq<T>)
    requires TotalPreorder(le) && SortedBy(s, le)
    ensures forall k :: 0 <= k < |r| ==> r[k] == x || r[k] in s
    ensures SortedBy(r, le) && multiset(r) == multiset(s) + multiset{x}
  {
    if s == [] then [x]
    else if le(x, s[0]) then
      ConsSorted(x, s, le);
      [x] + s
    else
      var rest := InsertBy(x, s[1..], le);
      assert s == [s[0]] + s[1..];
      HeadBelowInserted(s, x, rest, le);
      ConsSorted(s[0], rest, le);
      [s[0]] + rest
  }

  /** Insertion sort: an arrangement of `s` in which `le` holds of every ordered pair. */
  function SortBy<T(!new)>(s: seq<T>, le: (T, T) -> bool): (r: seq<T>)
    requires TotalPreorder(le)
    ensures SortedBy(r, le) && multiset(r) == multiset(s)
  {
    if s == [] then []
    else
      assert s == [s[0]] + s[1..];
      InsertBy(s[0], SortBy(s[1..], le), le)
  }

  // ---------------------------------------------------------------------
  // get_all_works

  predicate Newer(a: WorkRow, b: WorkRow) {
    a.createdAt >= b.createdAt
  }

  lemma NewerIsTotalPreorder()
    ensures TotalPreorder(Newer)
  {
  }

  function Works(rows: seq<WorkRow>): (r: seq<Work>)
    ensures |r| == |rows| && forall k :: 0 <= k < |rows| ==> r[k] == rows[k].work
  {
    seq(|rows|, k requires 0 <= k < |rows| => rows[k].work)
  }

  /** `order` holds every row of `rows` once, newest `created_at` first. */
  ghost predicate NewestFirst(order: seq<WorkRow>, rows: seq<WorkRow>) {
    multiset(order) == multiset(rows) && SortedBy(order, Newer)
  }

  /** `get_all_works`: every work, each once, ordered by `created_at`
      descending (rows with equal `created_at` in some order); a failing
      query is reported with its message. */
  function GetAllWorks(rows: seq<WorkRow>, failure: Option<string>): (r: Result<seq<Work>, string>)
    ensures failure.Some? ==> r == Err(failure.value)
    ensures failure.None? ==> r.Ok? && exists order :: NewestFirst(order, rows) && r.value == Works(order)
  {
    if failure.Some? then Err(failure.value)
    else
      NewerIsTotalPreorder();
      var order := SortBy(rows, Newer);
      assert NewestFirst(order, rows);
      Ok(Works(order))
  }

  /** Mapping rows to their works commutes with concatenation. */
  lemma WorksAppend(a: seq<WorkRow>, b: seq<WorkRow>)
    ensures Works(a + b) == Works(a) + Works(b)
  {
    assert |Works(a + b)| == |Works(a) + Works(b)|;
    forall k | 0 <= k < |a + b| ensures Works(a + b)[k] == (Works(a) + Works(b))[k] {
      if k < |a| {
        assert (a + b)[k] == a[k];
      } else {
        assert (a + b)[k] == b[k - |a|];
      }
    }
  }

  /** Taking the last element off one of two permutations of each other,
      and the same element off the other, leaves permutations. */
  lemma RemoveMatching<T>(a: seq<T>, b: seq<T>, i: nat)
    requires a != [] && multiset(a) == multiset(b) && i < |b| && b[i] == a[|a| - 1]
    ensures multiset(a[..|a| - 1]) == multiset(b[..i] + b[i + 1..])
  {
    var n := |a| - 1;
    var x := a[n];
    assert a == a[..n] + [x];
    assert b == b[..i] + [x] + b[i + 1..];
    calc {
      multiset(a[..n]);
      multiset(a) - multiset{x};
      multiset(b) - multiset{x};
      multiset(b[..i]) + multiset(b[i + 1..]);
      multiset(b[..i] + b[i + 1..]);
    }
  }

  /** `.map(|r| r.work)` over a permutation of the rows gives a permutation
      of their works. */
  lemma {:induction false} WorksOfPermutation(a: seq<WorkRow>, b: seq<WorkRow>)
    requires multiset(a) == multiset(b)
    ensures multiset(Works(a)) == multiset(Works(b))
    decreases |a|
  {
    if a == [] {
      assert |b| == |multiset(b)| == 0;
    } else {
      var n := |a| - 1;
      var x := a[n];
      assert a == a[..n] + [x];
      assert x in multiset(b);
      var i :| 0 <= i < |b| && b[i] == x;
      assert b == b[..i] + [x] + b[i + 1..];
      RemoveMatching(a, b, i);
      WorksOfPermutation(a[..n], b[..i] + b[i + 1..]);
      WorksAppend(a[..n], [x]);
      WorksAppend(b[..i], [x]);
      WorksAppend(b[..i] + [x], b[i + 1..]);
      WorksAppend(b[..i], b[i + 1..]);
    }
  }

  /** A successful `get_all_works` lists every stored work exactly as often
      as its row is stored. */
  lemma GetAllWorksEachOnce(rows: seq<WorkRow>)
    ensures multiset(GetAllWorks(rows, None).value) == multiset(Works(rows))
  {
    var r := GetAllWorks(rows, None);
    assert r.Ok? && exists order :: NewestFirst(order, rows) && r.value == Works(order);
    var order :| NewestFirst(order, rows) && r.value == Works(order);
    WorksOfPermutation(order, rows);
  }

  // ---------------------------------------------------------------------
  // get_work_tracks

  /** `WHERE work_id = ?`: the rows of `workId`, in table order, each as often as in the table. */
  function TracksOf(tracks: seq<Track>, workId: int): (r: seq<Track>)
    ensures forall t :: t in r <==> t in tracks && t.workId == workId
    ensures forall t :: multiset(r)[t] == if t.workId == workId then multiset(tracks)[t] else 0
  {
    if tracks == [] then []
    else
      var rest := TracksOf(tracks[..|tracks| - 1], workId);
      var last := tracks[|tracks| - 1];
      assert tracks == tracks[..|tracks| - 1] + [last];
      if last.workId == workId then rest + [last] else rest
  }

  predicate TitleOrder(a: Track, b: Track) {
    LexLe(a.title, b.title)
  }

  lemma TitleOrderIsTotalPreorder()
    ensures TotalPreorder(TitleOrder)
  {
    forall a: Track, b: Track ensures TitleOrder(a, b) || TitleOrder(b, a) {
      LexLeTotal(a.title, b.title);
    }
    forall a: Track, b: Track, c: Track | TitleOrder(a, b) && TitleOrder(b, c) ensures TitleOrder(a, c) {
      LexLeTransitive(a.title, b.title, c.title);
    }
  }

  /** `get_work_tracks`: the rows of `workId`, each once, by title ascending;
      a failing query is reported with its message. */
  function GetWorkTracks(tracks: seq<Track>, workId: int, failure: Option<string>): (r: Result<seq<Track>, string>)
    ensures failure.Some? ==> r == Err(failure.value)
    ensures failure.None? ==> r.Ok? && SortedBy(r.value, TitleOrder)
    ensures failure.None? ==> forall t :: multiset(r.value)[t] == if t.workId == workId then multiset(tracks)[t] else 0
  {
    if failure.Some? then Err(failure.value)
    else
      TitleOrderIsTotalPreorder();
      Ok(SortBy(TracksOf(tracks, workId), TitleOrder))
  }

  /** A track is listed for `workId` exactly when it is a row of that work. */
  lemma GetWorkTracksMembers(tracks: seq<Track>, workId: int, t: Track)
    ensures t in GetWorkTracks(tracks, workId, None).value <==> t in tracks && t.workId == workId
  {
    var r := GetWorkTracks(tracks, workId, None).value;
    assert t in r <==> multiset(r)[t] > 0;
    assert t in tracks <==> multiset(tracks)[t] > 0;
  }
}
