/** The pure part of the labelling session: the dataset and results tables
    as values, the distinct-id list in order of first appearance, the
    selection of unprocessed ids, and the facts about them that the session
    controller in ResponseGui relies on. */
module Labeling {

  /** A cell of the `id` column. Both tables are compared on this type. */
  type Id = string

  datatype Option<T> = None | Some(value: T)

  /** One row of the dataset file: only the three columns the tool reads. */
  datatype Row = Row(id: Id, name: string, value: string)

  /** A dataset as read from a file: its header and its rows. A field of
      `Row` whose column is absent from `columns` carries no meaning. */
  datatype Table = Table(columns: seq<string>, rows: seq<Row>)

  /** One label: the id and the response button that was pressed. */
  datatype Record = Record(id: Id, response: string)

  /** A prior results file as read from disk: header and records. */
  datatype ResultsTable = ResultsTable(columns: seq<string>, records: seq<Record>)

  /** The columns a dataset must have to be accepted. */
  const RequiredColumns: seq<string> := ["id", "name", "value"]

  /** The columns a results file must have to be adopted. */
  const ResultColumns: seq<string> := ["id", "response"]

  /** The columns showing a record's rows needs besides `id`. */
  const DisplayColumns: seq<string> := ["name", "value"]

  predicate HasColumns(columns: seq<string>, required: seq<string>)
  {
    forall c :: c in required ==> c in columns
  }

  predicate Distinct(s: seq<Id>)
  {
    forall i, j :: 0 <= i < j < |s| ==> s[i] != s[j]
  }

  /** The set of ids a sequence mentions. */
  function Elements(s: seq<Id>): set<Id>
  {
    set x | x in s
  }

  /** The `id` column of a dataset, row by row. */
  function Ids(rows: seq<Row>): (ids: seq<Id>)
    ensures |ids| == |rows|
    ensures forall i :: 0 <= i < |rows| ==> ids[i] == rows[i].id
  {
    if rows == [] then [] else [rows[0].id] + Ids(rows[1..])
  }

  /** The ids of a sequence of label records. */
  function RecordIds(records: seq<Record>): set<Id>
  {
    set r | r in records :: r.id
  }

  /** The position of the first row that carries `x`. */
  function FirstIndex(s: seq<Id>, x: Id): (k: nat)
    requires x in s
    ensures k < |s| && s[k] == x && x !in s[..k]
  {
    if s[0] == x then 0
    else
      var k' := FirstIndex(s[1..], x);
      assert s[..k' + 1] == [s[0]] + s[1..][..k'];
      1 + k'
  }

  /** The distinct values of `s`, each kept at its first occurrence: what
      the table library's `unique()` gives for the `id` column. */
  function Unique(s: seq<Id>): (u: seq<Id>)
    ensures Distinct(u)
    ensures forall x :: x in u <==> x in s
  {
    if s == [] then []
    else
      var seen := Unique(s[..|s| - 1]);
      var last := s[|s| - 1];
      assert s == s[..|s| - 1] + [last];
      if last in seen then seen else seen + [last]
  }

  /** The ids of `u` that are not in `processed`, in the order of `u`. */
  function Unprocessed(u: seq<Id>, processed: set<Id>): (r: seq<Id>)
    ensures forall x :: x in r <==> x in u && x !in processed
    ensures Distinct(u) ==> Distinct(r)
  {
    if u == [] then []
    else (if u[0] in processed then [] else [u[0]]) + Unprocessed(u[1..], processed)
  }

  /** The id a session shows next: the first of the distinct dataset ids
      that is not yet processed, or None when every id is processed. */
  function NextId(ids: seq<Id>, processed: set<Id>): (r: Option<Id>)
    ensures r.Some? ==> r.value in ids && r.value !in processed
  {
    var pending := Unprocessed(Unique(ids), processed);
    if pending == [] then None else Some(pending[0])
  }

  /** How many distinct dataset ids are still to be labelled. */
  function Remaining(ids: seq<Id>, processed: set<Id>): nat
  {
    |Unprocessed(Unique(ids), processed)|
  }

  /** Reference definition of the next id, read off the rows directly: the
      index of the first row whose id is unprocessed (|ids| if none). */
  function FirstPendingRow(ids: seq<Id>, processed: set<Id>): (m: nat)
    ensures m <= |ids|
    ensures forall i :: 0 <= i < m ==> ids[i] in processed
    ensures m < |ids| ==> ids[m] !in processed
  {
    if ids == [] || ids[0] !in processed then 0
    else 1 + FirstPendingRow(ids[1..], processed)
  }

  /** The number of distinct values of the `id` column, as the progress
      line counts them. */
  function DistinctCount(ids: seq<Id>): nat
  {
    |Elements(ids)|
  }

  // ---------------------------------------------------------------------
  // First-appearance order

  /** No row before the first occurrence carries the value: a corollary of
      `x !in s[..k]` in the contract of FirstIndex. */
  lemma FirstIndexIsFirst(s: seq<Id>, x: Id, i: nat)
    requires i < |s| && s[i] == x
    ensures FirstIndex(s, x) <= i
  {
  }

  /** A value already in `t` keeps its first position when a row is added. */
  lemma FirstIndexExtend(t: seq<Id>, y: Id, x: Id)
    requires x in t
    ensures FirstIndex(t + [y], x) == FirstIndex(t, x)
  {
    var s := t + [y];
    FirstIndexIsFirst(s, x, FirstIndex(t, x));
    FirstIndexIsFirst(t, x, FirstIndex(s, x));
  }

  /** `unique()` lists the distinct ids in order of their first appearance. */
  lemma {:induction false} UniqueKeepsFirstAppearanceOrder(s: seq<Id>)
    ensures forall i, j :: 0 <= i < j < |Unique(s)| ==>
              FirstIndex(s, Unique(s)[i]) < FirstIndex(s, Unique(s)[j])
  {
    if s != [] {
      var t, last := s[..|s| - 1], s[|s| - 1];
      assert s == t + [last];
      var seen := Unique(t);
      UniqueKeepsFirstAppearanceOrder(t);
      forall x | x in seen
        ensures FirstIndex(s, x) == FirstIndex(t, x) < |t|
      {
        FirstIndexExtend(t, last, x);
      }
      if last !in seen {
        assert forall i :: 0 <= i < |t| ==> s[i] == t[i] != last;
        assert FirstIndex(s, last) == |t|;
      }
    }
  }

  // ---------------------------------------------------------------------
  // Choosing the next id

  /** Every id of `u` occurs in `s`, and `u` lists them in the order of
      their first row in `s`. */
  ghost predicate InFirstAppearanceOrder(s: seq<Id>, u: seq<Id>)
  {
    (forall x :: x in u ==> x in s) &&
    forall i, j :: 0 <= i < j < |u| ==> FirstIndex(s, u[i]) < FirstIndex(s, u[j])
  }

  /** An ordered list stays ordered without its head, and its head comes
      before every id of its tail. */
  lemma OrderedTail(s: seq<Id>, u: seq<Id>)
    requires u != [] && InFirstAppearanceOrder(s, u)
    ensures InFirstAppearanceOrder(s, u[1..])
    ensures forall y :: y in u[1..] ==> FirstIndex(s, u[0]) < FirstIndex(s, y)
  {
    var tail := u[1..];
    forall i, j | 0 <= i < j < |tail|
      ensures FirstIndex(s, tail[i]) < FirstIndex(s, tail[j])
    {
      assert tail[i] == u[i + 1] && tail[j] == u[j + 1];
    }
    forall y | y in tail
      ensures FirstIndex(s, u[0]) < FirstIndex(s, y)
    {
      var j :| 0 <= j < |tail| && tail[j] == y;
      assert u[j + 1] == y;
    }
  }

  /** One pair of positions of `[x] + rest` is in first-appearance order. */
  lemma OrderedConsPair(s: seq<Id>, x: Id, rest: seq<Id>, i: nat, j: nat)
    requires x in s && InFirstAppearanceOrder(s, rest)
    requires forall y :: y in rest ==> FirstIndex(s, x) < FirstIndex(s, y)
    requires i < j < |rest| + 1
    ensures ([x] + rest)[i] in s && ([x] + rest)[j] in s
    ensures FirstIndex(s, ([x] + rest)[i]) < FirstIndex(s, ([x] + rest)[j])
  {
    var y := rest[j - 1];
    assert ([x] + rest)[j] == y && y in rest;
    if i == 0 {
      assert ([x] + rest)[i] == x;
    } else {
      assert ([x] + rest)[i] == rest[i - 1];
    }
  }

  /** An id that comes before everything in an ordered list can be put in
      front of it. */
  lemma OrderedCons(s: seq<Id>, x: Id, rest: seq<Id>)
    requires x in s && InFirstAppearanceOrder(s, rest)
    requires forall y :: y in rest ==> FirstIndex(s, x) < FirstIndex(s, y)
    ensures InFirstAppearanceOrder(s, [x] + rest)
  {
    forall z | z in [x] + rest
      ensures z in s
    {
      if z != x {
        assert z in rest;
      }
    }
    forall i: nat, j: nat | i < j < |rest| + 1
      ensures FirstIndex(s, ([x] + rest)[i]) < FirstIndex(s, ([x] + rest)[j])
    {
      OrderedConsPair(s, x, rest, i, j);
    }
  }

  /** Dropping processed ids keeps the remaining ones in their order. */
  lemma {:induction false} UnprocessedKeepsOrder(s: seq<Id>, u: seq<Id>, processed: set<Id>)
    requires InFirstAppearanceOrder(s, u)
    ensures InFirstAppearanceOrder(s, Unprocessed(u, processed))
  {
    if u != [] {
      OrderedTail(s, u);
      UnprocessedKeepsOrder(s, u[1..], processed);
      if u[0] !in processed {
        OrderedCons(s, u[0], Unprocessed(u[1..], processed));
      }
    }
  }

  /** When the ids before position k are processed and u[k] is not, the
      selection starts with u[k]. */
  lemma {:induction false} UnprocessedFirst(u: seq<Id>, processed: set<Id>, k: nat)
    requires k < |u| && u[k] !in processed
    requires forall i :: 0 <= i < k ==> u[i] in processed
    ensures Unprocessed(u, processed) != [] && Unprocessed(u, processed)[0] == u[k]
  {
    if k > 0 {
      UnprocessedFirst(u[1..], processed, k - 1);
    }
  }

  /** The next id is the id of the first row, in file order, whose id is
      unprocessed; there is none exactly when every row's id is processed. */
  lemma NextIdIsFirstPendingRow(ids: seq<Id>, processed: set<Id>)
    ensures var m := FirstPendingRow(ids, processed);
            NextId(ids, processed) == if m == |ids| then None else Some(ids[m])
  {
    var m := FirstPendingRow(ids, processed);
    var u := Unique(ids);
    var pending := Unprocessed(u, processed);
    if m == |ids| {
      forall x | x in ids
        ensures x in processed
      {
        var i :| 0 <= i < |ids| && ids[i] == x;
      }
    } else {
      var x := ids[m];
      assert x in u;
      FirstIndexIsFirst(ids, x, m);
      assert FirstIndex(ids, x) == m;
      var kk :| 0 <= kk < |u| && u[kk] == x;
      UniqueKeepsFirstAppearanceOrder(ids);
      forall j | 0 <= j < kk
        ensures u[j] in processed
      {
        assert FirstIndex(ids, u[j]) < m;
      }
      UnprocessedFirst(u, processed, kk);
    }
  }

  /** Whether an id is pending: the answer the next-id choice gives. A
      corollary of the contracts of NextId, Unique and Unprocessed. */
  lemma NextIdNoneIffAllProcessed(ids: seq<Id>, processed: set<Id>)
    ensures NextId(ids, processed).None? <==> Elements(ids) <= processed
  {
  }

  // ---------------------------------------------------------------------
  // The termination measure

  /** Marking one more id processed removes it from the selection and
      leaves the other ids where they were. */
  lemma {:induction false} UnprocessedAdd(u: seq<Id>, processed: set<Id>, x: Id)
    requires Distinct(u)
    ensures |Unprocessed(u, processed + {x})|
            == |Unprocessed(u, processed)| - (if x in u && x !in processed then 1 else 0)
  {
    if u != [] {
      assert Distinct(u[1..]);
      UnprocessedAdd(u[1..], processed, x);
      if u[0] == x {
        assert x !in u[1..];
      }
    }
  }

  /** Labelling an unprocessed dataset id lowers the number of ids still to
      label by exactly one; labelling any other id leaves it unchanged. */
  lemma LabelShrinksRemaining(ids: seq<Id>, processed: set<Id>, x: Id)
    ensures Remaining(ids, processed + {x})
            == Remaining(ids, processed) - (if x in ids && x !in processed then 1 else 0)
  {
    UnprocessedAdd(Unique(ids), processed, x);
  }

  // ---------------------------------------------------------------------
  // A whole labelling run

  /** Adding an id outside `u` to the processed set does not change the
      selection from `u`. */
  lemma {:induction false} UnprocessedIgnores(u: seq<Id>, processed: set<Id>, x: Id)
    requires x !in u
    ensures Unprocessed(u, processed + {x}) == Unprocessed(u, processed)
  {
    if u != [] {
      UnprocessedIgnores(u[1..], processed, x);
    }
  }

  /** Labelling the id at the head of the selection leaves exactly the rest
      of the selection. */
  lemma {:induction false} UnprocessedAfterHead(u: seq<Id>, processed: set<Id>)
    requires Distinct(u) && Unprocessed(u, processed) != []
    ensures var pending := Unprocessed(u, processed);
            Unprocessed(u, processed + {pending[0]}) == pending[1..]
  {
    var x := Unprocessed(u, processed)[0];
    assert Distinct(u[1..]);
    if u[0] in processed {
      UnprocessedAfterHead(u[1..], processed);
    } else {
      assert x == u[0] && x !in u[1..];
      UnprocessedIgnores(u[1..], processed, x);
    }
  }

  /** The ids a session shows, one after another, when every shown id is
      labelled: the next id, then the run from the enlarged processed set. */
  ghost function LabelingRun(ids: seq<Id>, processed: set<Id>): seq<Id>
    decreases Remaining(ids, processed)
  {
    match NextId(ids, processed)
    case None => []
    case Some(x) =>
      LabelShrinksRemaining(ids, processed, x);
      [x] + LabelingRun(ids, processed + {x})
  }

  /** A labelling run shows every unprocessed distinct id exactly once, in
      order of first appearance, and takes `Remaining` steps. */
  lemma {:induction false} LabelingRunVisitsPendingInOrder(ids: seq<Id>, processed: set<Id>)
    ensures LabelingRun(ids, processed) == Unprocessed(Unique(ids), processed)
    ensures Distinct(LabelingRun(ids, processed))
    ensures |LabelingRun(ids, processed)| == Remaining(ids, processed)
    ensures InFirstAppearanceOrder(ids, LabelingRun(ids, processed))
    decreases Remaining(ids, processed)
  {
    var pending := Unprocessed(Unique(ids), processed);
    UniqueKeepsFirstAppearanceOrder(ids);
    UnprocessedKeepsOrder(ids, Unique(ids), processed);
    if pending != [] {
      var x := pending[0];
      LabelShrinksRemaining(ids, processed, x);
      UnprocessedAfterHead(Unique(ids), processed);
      LabelingRunVisitsPendingInOrder(ids, processed + {x});
    }
  }

  // ---------------------------------------------------------------------
  // Progress figures

  /** A sequence without repeats has as many distinct values as entries. */
  lemma {:induction false} DistinctElements(s: seq<Id>)
    requires Distinct(s)
    ensures |Elements(s)| == |s|
  {
    if s != [] {
      assert Distinct(s[1..]);
      DistinctElements(s[1..]);
      assert Elements(s) == Elements(s[1..]) + {s[0]};
      assert s[0] !in Elements(s[1..]);
    }
  }

  /** The progress total, the number of distinct values of the `id`
      column, is the length of the first-appearance id list. */
  lemma UniqueCountsDistinct(ids: seq<Id>)
    ensures |Unique(ids)| == DistinctCount(ids)
  {
    DistinctElements(Unique(ids));
    assert Elements(Unique(ids)) == Elements(ids);
  }

  /** The dataset ids already processed plus the ids still to label make
      up the progress total. */
  lemma ProgressAccounts(ids: seq<Id>, processed: set<Id>)
    ensures |Elements(ids) * processed| + Remaining(ids, processed) == DistinctCount(ids)
  {
    var pending := Unprocessed(Unique(ids), processed);
    DistinctElements(pending);
    assert Elements(pending) == Elements(ids) - processed;
    assert Elements(ids) == (Elements(ids) * processed) + (Elements(ids) - processed);
  }
}
