/** The journal's persistence and its request handlers. The data file is the
    single source of truth: every request reads the whole log from it, and
    every change writes the whole log back. */
module Store {
  import opened Journal
  import opened JsArray
  import opened Views
  import opened Aggregation

  /** What the data file holds: nothing, text that does not parse as a log,
      or a log. */
  datatype Medium = Missing | Unparseable | Holds(log: seq<Entry>)

  /** `readData`: the stored log, and the empty log when the file is missing
      or unparseable; reading never fails. */
  function ReadData(medium: Medium): (log: seq<Entry>)
    ensures medium.Holds? ==> log == medium.log
    ensures !medium.Holds? ==> log == []
  {
    match medium
    case Holds(log) => log
    case _ => []
  }

  /** `entries.filter(entry => entry.id !== id)`. */
  function RemoveId(log: seq<Entry>, id: int): (kept: seq<Entry>)
    ensures |kept| <= |log|
    ensures forall i :: 0 <= i < |kept| ==> kept[i].id != id
  {
    if log == [] then []
    else (if log[0].id == id then [] else [log[0]]) + RemoveId(log[1..], id)
  }

  /** The filtered log holds exactly the entries of the log whose identifier
      differs from `id`. */
  lemma {:induction false} RemoveIdMembers(log: seq<Entry>, id: int)
    ensures forall e :: e in RemoveId(log, id) <==> e in log && e.id != id
  {
    if log != [] {
      RemoveIdMembers(log[1..], id);
      assert log == [log[0]] + log[1..];
    }
  }

  /** Filtering works run by run, so the kept entries stay in their original
      relative order. */
  lemma {:induction false} RemoveIdConcat(a: seq<Entry>, b: seq<Entry>, id: int)
    ensures RemoveId(a + b, id) == RemoveId(a, id) + RemoveId(b, id)
  {
    if a == [] {
      assert a + b == b;
    } else {
      assert (a + b)[0] == a[0];
      assert (a + b)[1..] == a[1..] + b;
      RemoveIdConcat(a[1..], b, id);
    }
  }

  /** Removing an identifier that no entry carries leaves the log unchanged. */
  lemma {:induction false} RemoveIdAbsent(log: seq<Entry>, id: int)
    requires !HasId(log, id)
    ensures RemoveId(log, id) == log
  {
    if log != [] {
      assert !HasId(log[1..], id) by {
        forall i | 0 <= i < |log[1..]| ensures log[1..][i].id != id {
          assert log[1..][i] == log[i + 1];
        }
      }
      RemoveIdAbsent(log[1..], id);
    }
  }

  /** Removing the same identifier twice is removing it once. */
  lemma RemoveIdIdempotent(log: seq<Entry>, id: int)
    ensures RemoveId(RemoveId(log, id), id) == RemoveId(log, id)
  {
    RemoveIdAbsent(RemoveId(log, id), id);
  }

  /** In a log with unique identifiers, no entry before or after position
      `i` carries the identifier of the entry at `i`. */
  lemma UniqueIdAt(log: seq<Entry>, i: nat)
    requires UniqueIds(log) && i < |log|
    ensures !HasId(log[..i], log[i].id) && !HasId(log[i + 1..], log[i].id)
  {
  }

  /** Removing the identifier of the one entry that carries it cuts out
      exactly that entry. */
  lemma RemoveIdSplice(before: seq<Entry>, x: Entry, after: seq<Entry>)
    requires !HasId(before, x.id) && !HasId(after, x.id)
    ensures RemoveId(before + [x] + after, x.id) == before + after
  {
    var rest := [x] + after;
    assert before + [x] + after == before + rest;
    RemoveIdConcat(before, rest, x.id);
    RemoveIdAbsent(before, x.id);
    assert rest[0] == x && rest[1..] == after;
    assert RemoveId(rest, x.id) == RemoveId(after, x.id);
    RemoveIdAbsent(after, x.id);
  }

  /** In a log with unique identifiers, removing the identifier of the entry
      at position `i` removes exactly that entry. */
  lemma RemoveIdExactlyOne(log: seq<Entry>, i: nat, id: int)
    requires UniqueIds(log)
    requires i < |log| && log[i].id == id
    ensures RemoveId(log, id) == log[..i] + log[i + 1..]
    ensures |RemoveId(log, id)| == |log| - 1
  {
    UniqueIdAt(log, i);
    assert log == log[..i] + [log[i]] + log[i + 1..];
    RemoveIdSplice(log[..i], log[i], log[i + 1..]);
  }

  /** Filtering keeps identifiers increasing along the log. */
  lemma {:induction false} RemoveIdKeepsIdsIncreasing(log: seq<Entry>, id: int)
    requires IdsIncreasing(log)
    ensures IdsIncreasing(RemoveId(log, id))
  {
    if log != [] {
      var rest := log[1..];
      assert IdsIncreasing(rest) by {
        forall i, j | 0 <= i < j < |rest| ensures rest[i].id < rest[j].id {
          assert rest[i] == log[i + 1] && rest[j] == log[j + 1];
        }
      }
      RemoveIdKeepsIdsIncreasing(rest, id);
      var tail := RemoveId(rest, id);
      RemoveIdMembers(rest, id);
      forall k | 0 <= k < |tail| ensures log[0].id < tail[k].id {
        var p :| 0 <= p < |rest| && rest[p] == tail[k];
        assert rest[p] == log[p + 1];
      }
    }
  }

  /** An entry whose identifier exceeds every identifier in the log keeps
      identifiers increasing when appended, as an identifier read from a
      strictly increasing clock would. */
  lemma AppendKeepsIdsIncreasing(log: seq<Entry>, id: int, form: Submission)
    requires IdsIncreasing(log)
    requires forall i :: 0 <= i < |log| ==> log[i].id < id
    ensures IdsIncreasing(log + [NewEntry(id, form)])
    ensures UniqueIds(log + [NewEntry(id, form)])
  {
  }

  /** Deleting a freshly added entry by its identifier restores the log the
      entry was added to. */
  lemma RemoveIdUndoesAppend(log: seq<Entry>, id: int, form: Submission)
    requires !HasId(log, id)
    ensures RemoveId(log + [NewEntry(id, form)], id) == log
  {
    var e := NewEntry(id, form);
    RemoveIdConcat(log, [e], id);
    RemoveIdAbsent(log, id);
    assert [e][1..] == [];
  }

  /** Deleting identifier 2 from a log with identifiers 1, 2 and 3 leaves the
      entries with identifiers 1 and 3; deleting 999 leaves all three. */
  lemma RemoveIdExamples(a: Entry, b: Entry, c: Entry)
    requires a.id == 1 && b.id == 2 && c.id == 3
    ensures RemoveId([a, b, c], 2) == [a, c]
    ensures RemoveId([a, b, c], 999) == [a, b, c]
  {
    RemoveIdExactlyOne([a, b, c], 1, 2);
    assert [a, b, c][..1] + [a, b, c][2..] == [a, c];
    RemoveIdAbsent([a, b, c], 999);
  }

  /** What the reports page is rendered from. */
  datatype Report = Report(
    entries: seq<Entry>,
    averages: Averages,
    totalEntries: nat,
    recent: seq<Entry>,
    previous: seq<Entry>)

  /** The journal behind the request handlers, holding the data file. */
  class EntryStore {
    var medium: Medium

    /** Starting the application: a missing data file is created holding the
        empty log; a file that exists is left as it is. */
    constructor Open(found: Medium)
      ensures medium == if found.Missing? then Holds([]) else found
      ensures ReadData(medium) == ReadData(found)
    {
      medium := if found.Missing? then Holds([]) else found;
    }

    /** `writeData`: the whole log overwrites the file. */
    method WriteData(data: seq<Entry>)
      modifies this
      ensures medium == Holds(data)
    {
      medium := Holds(data);
    }

    /** `POST /entry`: build the entry, push it onto the log read from the
        file, and write the whole log back. The log grows by exactly that
        entry, at the end; every earlier entry stays as it was, in order. */
    method AddEntry(id: int, form: Submission) returns (entry: Entry)
      modifies this
      ensures entry == NewEntry(id, form)
      ensures medium == Holds(old(ReadData(medium)) + [entry])
      ensures |ReadData(medium)| == |old(ReadData(medium))| + 1
      ensures ReadData(medium)[|ReadData(medium)| - 1] == entry
      ensures ReadData(medium)[..|old(ReadData(medium))|] == old(ReadData(medium))
    {
      entry := NewEntry(id, form);
      var entries := ReadData(medium);
      entries := entries + [entry];
      WriteData(entries);
      assert entries[..|entries| - 1] == old(ReadData(medium));
    }

    /** `DELETE /entry/:id`: filter the entries with that identifier out of
        the log read from the file, write the whole log back, and report
        success whether or not anything matched. */
    method DeleteEntry(id: int) returns (success: bool)
      modifies this
      ensures medium == Holds(RemoveId(old(ReadData(medium)), id))
      ensures !HasId(old(ReadData(medium)), id) ==> ReadData(medium) == old(ReadData(medium))
      ensures success
    {
      var entries := ReadData(medium);
      if !HasId(entries, id) {
        RemoveIdAbsent(entries, id);
      }
      entries := RemoveId(entries, id);
      WriteData(entries);
      success := true;
    }

    /** `GET /`: the last seven entries of the stored log, in log order. */
    method Home() returns (view: seq<Entry>)
      ensures view == HomeView(ReadData(medium))
    {
      var entries := ReadData(medium);
      view := SliceFrom(entries, -7);
    }

    /** `GET /api/chart-data`: the last thirty entries of the stored log, in
        log order. */
    method Chart() returns (data: seq<Entry>)
      ensures data == ChartData(ReadData(medium))
    {
      data := SliceFrom(ReadData(medium), -30);
    }

    /** `GET /reports`: the whole log, its size, the exact average of every
        metric over it, and the two trend windows. */
    method Reports() returns (report: Report)
      ensures report.entries == ReadData(medium)
      ensures report.totalEntries == |report.entries|
      ensures forall m :: report.averages.Of(m) == MeanOf(report.entries, m)
      ensures report.recent == Recent(report.entries)
      ensures report.previous == Previous(report.entries)
    {
      var entries := ReadData(medium);
      var totalEntries := |entries|;
      var averages := ComputeAverages(entries);
      var recent := SliceFrom(entries, -7);
      var previous := Slice(entries, -14, -7);
      report := Report(entries, averages, totalEntries, recent, previous);
    }
  }
}
