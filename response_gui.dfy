/** The labelling-session controller: the state a ResponseGUI window keeps
    (dataset, label records, processed ids, the id on screen, the data
    folder) and the operations its buttons run on it. Widgets, dialogs and
    message boxes are not modelled; what a dialog returns and what a file
    read yields are parameters, and what would be written to disk is
    returned. */
module ResponseGui {
  import opened Labeling

  /** The fixed name of the results file kept beside the dataset. */
  const ResultsFileName: string := "result.csv"

  /** What the open-file dialog and the read of the chosen file gave:
      nothing chosen, or a folder and the table read from it (None when
      the read failed). */
  datatype FileChoice = Cancelled | Picked(folder: string, contents: Option<Table>)

  /** What choosing the next id did: showed an id, found every id
      processed, failed to find the `id` column (no dataset, or a dataset
      without one), or set the id and then failed to show its rows because
      `name` or `value` is missing. */
  datatype Advance = Shown(id: Id) | AllProcessed | LookupFailed | DisplayFailed(id: Id)

  /** How a load ended. */
  datatype LoadOutcome =
    | NoFile
    | ReadFailed
    | MissingColumns
    | Loaded(existingFound: bool, first: Advance)

  /** A write of the whole record table to `file` in `folder`. */
  datatype ResultWrite = ResultWrite(folder: string, file: string, records: seq<Record>)

  /** How an export request ended. */
  datatype ExportOutcome = NothingToExport | ExportCancelled | Exported(path: string, records: seq<Record>)

  /** The two figures of the progress line. */
  datatype ProgressFigures = ProgressFigures(processed: nat, total: nat)

  /** What choosing the next id does for a dataset and a processed set. */
  function AdvanceOutcome(df: Option<Table>, processed: set<Id>): Advance
  {
    if df.None? || "id" !in df.value.columns then LookupFailed
    else
      match NextId(Ids(df.value.rows), processed)
      case None => AllProcessed
      case Some(x) =>
        if HasColumns(df.value.columns, DisplayColumns) then Shown(x) else DisplayFailed(x)
  }

  /** The id on screen after an advance: the chosen one, or the previous
      one when nothing was chosen. */
  function AfterAdvance(a: Advance, current: Option<Id>): Option<Id>
  {
    match a
    case Shown(x) => Some(x)
    case DisplayFailed(x) => Some(x)
    case _ => current
  }

  class ResponseGui {
    var df: Option<Table>
    var responses: seq<Record>
    var currentId: Option<Id>
    var processedIds: set<Id>
    var currentDataFolder: Option<string>

    /** The processed set is always the set of ids of the records, and an
        id is on screen only once a dataset has been read. */
    ghost predicate Valid()
      reads this
    {
      processedIds == RecordIds(responses) &&
      (currentId.Some? ==> df.Some?)
    }

    constructor ()
      ensures Valid()
      ensures df == None && responses == [] && currentId == None
      ensures processedIds == {} && currentDataFolder == None
    {
      df := None;
      responses := [];
      currentId := None;
      processedIds := {};
      currentDataFolder := None;
    }

    /** Adopts a prior results table when it was found, read and has both
        an `id` and a `response` column; otherwise changes nothing. */
    method LoadExistingResults(existing: Option<ResultsTable>) returns (found: bool)
      requires Valid()
      modifies this`responses, this`processedIds
      ensures Valid()
      ensures found <==> existing.Some? && HasColumns(existing.value.columns, ResultColumns)
      ensures found ==> responses == existing.value.records &&
                        processedIds == RecordIds(existing.value.records)
      ensures !found ==> responses == old(responses) && processedIds == old(processedIds)
    {
      found := false;
      if existing.Some? && HasColumns(existing.value.columns, ResultColumns) {
        responses := existing.value.records;
        processedIds := RecordIds(existing.value.records);
        found := true;
      }
    }

    /** Chooses the first unprocessed id of the dataset, in order of first
        appearance, and puts it on screen. When there is none the previous
        id stays where it was. */
    method LoadNextId() returns (a: Advance)
      requires Valid()
      modifies this`currentId
      ensures Valid()
      ensures a == AdvanceOutcome(df, processedIds)
      ensures currentId == AfterAdvance(a, old(currentId))
      ensures a.Shown? || a.DisplayFailed? ==> a.id !in processedIds
    {
      if df.None? || "id" !in df.value.columns {
        return LookupFailed;
      }
      var uniqueIds := Unique(Ids(df.value.rows));
      var unprocessedIds := Unprocessed(uniqueIds, processedIds);
      if unprocessedIds == [] {
        return AllProcessed;
      }
      currentId := Some(unprocessedIds[0]);
      if HasColumns(df.value.columns, DisplayColumns) {
        a := Shown(unprocessedIds[0]);
      } else {
        a := DisplayFailed(unprocessedIds[0]);
      }
    }

    /** The progress line: processed ids over distinct dataset ids. */
    function Progress(): (p: ProgressFigures)
      reads this
      requires df.Some? && "id" in df.value.columns
      ensures p.processed == |processedIds|
      ensures p.total == |Unique(Ids(df.value.rows))|
    {
      var ids := Ids(df.value.rows);
      UniqueCountsDistinct(ids);
      ProgressFigures(|processedIds|, DistinctCount(ids))
    }

    /** Writes the whole record table to the results file of the data
        folder; with no folder set it writes nothing. A failed write is
        reported and changes no state. */
    method SaveToResultFile() returns (w: Option<ResultWrite>)
      ensures w.None? <==> currentDataFolder.None?
      ensures w.Some? ==>
                w.value.folder == currentDataFolder.value &&
                w.value.file == ResultsFileName &&
                w.value.records == responses
    {
      if currentDataFolder.None? {
        return None;
      }
      w := Some(ResultWrite(currentDataFolder.value, ResultsFileName, responses));
    }

    /** Labels the id on screen: appends one record, marks the id
        processed, rewrites the results file and moves on. With no id on
        screen nothing happens. */
    method RecordResponse(response: string) returns (saved: Option<ResultWrite>, advance: Option<Advance>)
      requires Valid()
      modifies this`responses, this`processedIds, this`currentId
      ensures Valid()
      ensures old(currentId).None? ==>
                responses == old(responses) && processedIds == old(processedIds) &&
                currentId == None && saved == None && advance == None
      ensures old(currentId).Some? ==>
                var x := old(currentId).value;
                responses == old(responses) + [Record(x, response)] &&
                processedIds == old(processedIds) + {x} &&
                saved == (if currentDataFolder.None? then None
                          else Some(ResultWrite(currentDataFolder.value, ResultsFileName, responses))) &&
                advance == Some(AdvanceOutcome(df, processedIds)) &&
                currentId == AfterAdvance(advance.value, old(currentId))
      // the id put on screen next is never the one just labelled
      ensures old(currentId).Some? && currentId != old(currentId) ==>
                currentId.Some? && currentId.value !in processedIds
      // labelling a pending dataset id leaves one id fewer to label
      ensures old(currentId).Some? && df.Some? &&
              old(currentId).value in Ids(df.value.rows) && old(currentId).value !in old(processedIds) ==>
                Remaining(Ids(df.value.rows), processedIds)
                == Remaining(Ids(df.value.rows), old(processedIds)) - 1
    {
      if currentId.None? {
        return None, None;
      }
      var x := currentId.value;
      responses := responses + [Record(x, response)];
      processedIds := processedIds + {x};
      if df.Some? {
        LabelShrinksRemaining(Ids(df.value.rows), old(processedIds), x);
      }
      saved := SaveToResultFile();
      var a := LoadNextId();
      advance := Some(a);
    }

    /** Exports the record table to a chosen file; refused when there are
        no records, skipped when the save dialog is cancelled. */
    method ExportResponses(destination: Option<string>) returns (e: ExportOutcome)
      ensures e.NothingToExport? <==> responses == []
      ensures e.ExportCancelled? <==> responses != [] && destination.None?
      ensures e.Exported? ==> destination == Some(e.path) && e.records == responses
    {
      if responses == [] {
        return NothingToExport;
      }
      if destination.None? {
        return ExportCancelled;
      }
      e := Exported(destination.value, responses);
    }

    /** Opens a dataset. The table replaces `df` before its columns are
        checked; a table without `id`, `name` and `value` is then rejected
        with the rest of the state untouched. An accepted table sets the
        data folder, adopts the prior results found there or resets the
        records, and chooses the first id. */
    method LoadData(choice: FileChoice, existing: Option<ResultsTable>) returns (outcome: LoadOutcome)
      requires Valid()
      modifies this
      ensures Valid()
      ensures outcome == NoFile <==> choice.Cancelled?
      ensures outcome == ReadFailed <==> choice.Picked? && choice.contents.None?
      ensures outcome == NoFile || outcome == ReadFailed ==> unchanged(this)
      ensures choice.Picked? && choice.contents.Some? ==> df == choice.contents
      ensures outcome == MissingColumns <==>
                choice.Picked? && choice.contents.Some? &&
                !HasColumns(choice.contents.value.columns, RequiredColumns)
      ensures outcome == MissingColumns ==>
                responses == old(responses) && processedIds == old(processedIds) &&
                currentId == old(currentId) && currentDataFolder == old(currentDataFolder)
      ensures outcome.Loaded? ==>
                choice.Picked? && currentDataFolder == Some(choice.folder) &&
                (outcome.existingFound <==> existing.Some? && HasColumns(existing.value.columns, ResultColumns)) &&
                responses == (if outcome.existingFound then existing.value.records else []) &&
                processedIds == RecordIds(responses) &&
                outcome.first == AdvanceOutcome(df, processedIds) &&
                (outcome.first.Shown? || outcome.first.AllProcessed?) &&
                currentId == AfterAdvance(outcome.first, old(currentId))
    {
      if choice.Cancelled? {
        return NoFile;
      }
      if choice.contents.None? {
        return ReadFailed;
      }
      df := choice.contents;
      if !HasColumns(df.value.columns, RequiredColumns) {
        return MissingColumns;
      }
      currentDataFolder := Some(choice.folder);
      var existingFound := LoadExistingResults(existing);
      if !existingFound {
        responses := [];
        processedIds := {};
      }
      var first := LoadNextId();
      outcome := Loaded(existingFound, first);
    }
  }

  /** The dataset rows (one, a, 10), (one, b, 11), (two, c, 20) with no
      prior results: `one` is shown first, labelling it shows `two`,
      labelling that finds every id processed, and the whole run labels
      `one` and then `two`. */
  lemma ExampleNextIds(rows: seq<Row>, one: Id, two: Id)
    requires one != two
    requires rows == [Row(one, "a", "10"), Row(one, "b", "11"), Row(two, "c", "20")]
    ensures NextId(Ids(rows), {}) == Some(one)
    ensures NextId(Ids(rows), {one}) == Some(two)
    ensures NextId(Ids(rows), {one, two}) == None
    ensures LabelingRun(Ids(rows), {}) == [one, two]
  {
    var ids := Ids(rows);
    assert ids == [one, one, two];
    assert ids[..2] == [one, one] && [one, one][..1] == [one] && [one][..0] == [];
    assert Unique([one]) == [one];
    assert Unique([one, one]) == [one];
    assert Unique(ids) == [one, two];
    assert [one, two][1..] == [two] && [two][1..] == [];
    assert Unprocessed([two], {}) == [two];
    assert Unprocessed([one, two], {}) == [one, two];
    assert Unprocessed([two], {one}) == [two];
    assert Unprocessed([one, two], {one}) == [two];
    assert Unprocessed([two], {one, two}) == [];
    assert Unprocessed([one, two], {one, two}) == [];
    assert LabelingRun(ids, {}) == [one, two] by {
      LabelingRunVisitsPendingInOrder(ids, {});
    }
  }

  /** Once every id is processed the last id stays on screen, so a further
      call (which only the disabled buttons prevent) appends a second
      record for an id that is already processed. */
  method ExampleStaleRelabel(gui: ResponseGui)
    requires gui.Valid() && gui.currentId.Some?
    requires AdvanceOutcome(gui.df, gui.processedIds) == AllProcessed
    modifies gui
    ensures gui.responses == old(gui.responses) + [Record(old(gui.currentId).value, "positive")]
    ensures gui.processedIds == old(gui.processedIds) + {old(gui.currentId).value}
    ensures gui.currentId == old(gui.currentId)
  {
    var saved, advance := gui.RecordResponse("positive");
    assert advance == Some(AllProcessed);
  }
}
