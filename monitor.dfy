/** One run of the activity monitor (`main`): load the previous snapshot, pick out
    the titles that are new, send one e-mail if there are any, and overwrite the
    snapshot with the current titles. The page fetch, the HTML extraction and the
    SMTP session are outside the model: the current titles and whether
    `enviar_correo` returns without raising are inputs of a run. */
module Pipeline {
  import opened Wrappers
  import opened Seqs
  import opened Changes
  import opened Notice

  /** What the snapshot file `actividades.json` holds when a run starts. */
  datatype SnapshotFile =
    | Absent                        // the file does not exist
    | Holds(titles: seq<Activity>)  // the file parses as a JSON array of strings
    | Unreadable                    // the file exists but json.load raises on it

  /** The exceptions that can end a run early. */
  datatype Failure =
    | CorruptSnapshot  // raised by json.load in cargar_previas
    | SendError        // raised anywhere in enviar_correo's SMTP session (connect, login, send or QUIT)

  /** What a run did, as seen from outside. */
  datatype Outcome =
    | NoNews                           // nothing new; the snapshot was refreshed
    | Notified(nuevas: seq<Activity>)  // one e-mail listing nuevas; the snapshot was saved
    | Aborted(failure: Failure, attempted: Option<seq<Activity>>)
      // an exception left main; attempted is the list handed to enviar_correo, if any
  {
    /** The run reached guardar_actividades. */
    predicate Completed()
    {
      NoNews? || Notified?
    }

    /** The list handed to enviar_correo, if it was called. */
    function Attempted(): Option<seq<Activity>>
    {
      match this
      case NoNews => None
      case Notified(nuevas) => Some(nuevas)
      case Aborted(_, attempted) => attempted
    }
  }

  /** `cargar_previas()`: an absent file counts as an empty list. */
  function Load(file: SnapshotFile): (r: Result<seq<Activity>, Failure>)
    ensures r.Failure? <==> file.Unreadable?
    ensures r.Failure? ==> r.error == CorruptSnapshot
    ensures file.Absent? ==> r == Success([])
    ensures file.Holds? ==> r == Success(file.titles)
  {
    match file
    case Absent => Success([])
    case Holds(titles) => Success(titles)
    case Unreadable => Failure(CorruptSnapshot)
  }

  /** The specification of one run: the snapshot afterwards and what was observed,
      from the snapshot before, the current titles and whether `enviar_correo`
      returns normally (delivered). */
  function Step(file: SnapshotFile, actuales: seq<Activity>, delivered: bool): (r: (SnapshotFile, Outcome))
    // a run that gets past the load and the send always leaves the current titles behind
    ensures r.1.Completed() ==> r.0 == Holds(actuales)
    // a run that raises leaves the file as it was
    ensures !r.1.Completed() ==> r.0 == file
    // the notifier is called exactly when some title is new, and then with exactly those titles
    ensures file.Unreadable? ==> r.1 == Aborted(CorruptSnapshot, None)
    ensures !file.Unreadable? ==>
      var nuevas := Diff(actuales, Load(file).value);
      (r.1.Attempted() == if nuevas == [] then None else Some(nuevas))
    ensures r.1.Aborted? && r.1.failure == SendError <==> !file.Unreadable? && !delivered && r.1.Attempted() != None
    ensures r.1.Aborted? && r.1.failure == CorruptSnapshot ==> file.Unreadable?
    // which runs complete: a readable snapshot, and either nothing to send or enviar_correo returning normally
    ensures r.1.Completed() <==> !file.Unreadable? && (delivered || r.1.Attempted() == None)
  {
    match Load(file)
    case Failure(e) => (file, Aborted(e, None))
    case Success(previas) =>
      var nuevas := Diff(actuales, previas);
      if nuevas != [] then
        if delivered then (Holds(actuales), Notified(nuevas))
        else (file, Aborted(SendError, Some(nuevas)))
      else (Holds(actuales), NoNews)
  }

  /** Every title reported by a run was absent from the snapshot it started from,
      and every current title absent from that snapshot is reported. */
  lemma StepReportsExactlyNew(file: SnapshotFile, actuales: seq<Activity>, delivered: bool, x: Activity)
    requires file.Holds?
    requires Diff(actuales, file.titles) != []
    ensures Step(file, actuales, delivered).1.Attempted().Some?
    ensures x in Step(file, actuales, delivered).1.Attempted().value <==> x in actuales && x !in file.titles
  {
  }

  /** A notice never repeats a title when the current list has no repeats. */
  lemma StepNoticeNoDups(file: SnapshotFile, actuales: seq<Activity>, delivered: bool)
    requires NoDups(actuales)
    requires Step(file, actuales, delivered).1.Attempted().Some?
    ensures NoDups(Step(file, actuales, delivered).1.Attempted().value)
  {
    DiffNoDups(actuales, Load(file).value);
  }

  /** The titles main receives are always the output of Dedup, so a notice never
      repeats a title, whatever the page listed twice. */
  lemma StepDedupNoticeNoDups(file: SnapshotFile, extracted: seq<Activity>, delivered: bool)
    requires Step(file, Dedup(extracted), delivered).1.Attempted().Some?
    ensures NoDups(Step(file, Dedup(extracted), delivered).1.Attempted().value)
  {
    StepNoticeNoDups(file, Dedup(extracted), delivered);
  }

  /** Idempotence over an unchanged page: right after a completed run, a run whose
      titles are the same set, in any order (each process orders `list(set(...))`
      afresh), reports nothing, does not call the notifier, and stores the titles in
      the new order. With the identical list the snapshot is left as it was. */
  lemma StepIdempotent(file: SnapshotFile, a1: seq<Activity>, a2: seq<Activity>, d1: bool, d2: bool)
    requires Step(file, a1, d1).1.Completed()
    requires Elements(a2) == Elements(a1)
    ensures Step(Step(file, a1, d1).0, a2, d2) == (Holds(a2), NoNews)
    ensures a2 == a1 ==> Step(Step(file, a1, d1).0, a2, d2).0 == Step(file, a1, d1).0
  {
    DiffEmpty(a2, a1);
  }

  /** When there is no snapshot file, every current title is new and is reported,
      in the order of the current list. */
  lemma StepFirstRun(actuales: seq<Activity>, delivered: bool)
    requires actuales != []
    ensures Step(Absent, actuales, delivered).1.Attempted() == Some(actuales)
    ensures delivered ==> Step(Absent, actuales, delivered) == (Holds(actuales), Notified(actuales))
  {
    DiffNoPrevious(actuales);
  }

  /** An empty extraction is not special: it finds nothing new and still
      overwrites the snapshot with the empty list. */
  lemma StepEmptyExtraction(file: SnapshotFile, delivered: bool)
    requires !file.Unreadable?
    ensures Step(file, [], delivered) == (Holds([]), NoNews)
  {
  }

  /** Only the set of titles in the snapshot matters, not their order or repeats. */
  lemma StepPreviousAsSet(p: seq<Activity>, q: seq<Activity>, actuales: seq<Activity>, delivered: bool)
    requires Elements(p) == Elements(q)
    ensures Step(Holds(p), actuales, delivered).1 == Step(Holds(q), actuales, delivered).1
  {
    DiffPreviousAsSet(actuales, p, q);
  }

  /** Nothing is reported exactly when every current title is already in the snapshot. */
  lemma StepNoNews(titles: seq<Activity>, actuales: seq<Activity>, delivered: bool)
    ensures Step(Holds(titles), actuales, delivered).1 == NoNews <==> Elements(actuales) <= Elements(titles)
  {
    DiffEmpty(actuales, titles);
  }

  /** Three concrete runs: an unchanged page reports nothing and keeps the
      same titles; the same titles in another order report nothing but rewrite the
      snapshot in that order; a first title on an empty snapshot is reported once and saved. */
  lemma StepExamples(delivered: bool)
    ensures Step(Holds(["Taller A", "Charla B"]), ["Taller A", "Charla B"], delivered)
         == (Holds(["Taller A", "Charla B"]), NoNews)
    ensures Step(Holds(["Taller A", "Charla B"]), ["Charla B", "Taller A"], delivered)
         == (Holds(["Charla B", "Taller A"]), NoNews)
    ensures Step(Holds(["Taller A", "Charla B"]), ["Charla B", "Taller A"], delivered).0
         != Holds(["Taller A", "Charla B"])
    ensures Step(Holds([]), ["Feria C"], true) == (Holds(["Feria C"]), Notified(["Feria C"]))
  {
    DiffEmpty(["Taller A", "Charla B"], ["Taller A", "Charla B"]);
    DiffEmpty(["Charla B", "Taller A"], ["Taller A", "Charla B"]);
    assert ["Charla B", "Taller A"][0] != ["Taller A", "Charla B"][0];
    DiffNoPrevious(["Feria C"]);
  }

  /** The snapshot file, updated in place by each run. */
  class Monitor {
    var file: SnapshotFile

    constructor (initial: SnapshotFile)
      ensures file == initial
    {
      file := initial;
    }

    /** `guardar_actividades(actividades)`: overwrite the file with the list. */
    method Save(actividades: seq<Activity>)
      modifies this
      ensures file == Holds(actividades)
    {
      file := Holds(actividades);
    }

    /** `main()` for the titles actuales that `obtener_actividades` returned;
        delivered says whether `enviar_correo` returns without raising. */
    method Run(actuales: seq<Activity>, delivered: bool) returns (o: Outcome)
      modifies this
      ensures (file, o) == Step(old(file), actuales, delivered)
      ensures o.Completed() ==> file == Holds(actuales)
      ensures !o.Completed() ==> file == old(file)
    {
      var loaded := Load(file);
      if loaded.Failure? {
        return Aborted(loaded.error, None);
      }
      var previas := loaded.value;
      var nuevas := Diff(actuales, previas);
      if nuevas != [] {
        if !delivered {
          // enviar_correo raised, so guardar_actividades is never reached
          return Aborted(SendError, Some(nuevas));
        }
        Save(actuales);
        o := Notified(nuevas);
      } else {
        Save(actuales);
        o := NoNews;
      }
    }

    /** `main()` run twice, as two separate processes, over an unchanged page: the
        second run is given the same titles, possibly in another order (a1 and a2
        hold the same set). Once the first completes, the second reports nothing and
        stores a2; if the first raised, the second acts on the untouched file and, for
        the identical list, retries the same notice. */
    method RunTwice(a1: seq<Activity>, a2: seq<Activity>, d1: bool, d2: bool) returns (first: Outcome, second: Outcome)
      modifies this
      ensures first == Step(old(file), a1, d1).1
      ensures (file, second) == Step(Step(old(file), a1, d1).0, a2, d2)
      ensures first.Completed() && Elements(a2) == Elements(a1) ==> second == NoNews && file == Holds(a2)
      ensures !first.Completed() ==> (file, second) == Step(old(file), a2, d2)
      ensures !first.Completed() && a2 == a1 ==> second.Attempted() == first.Attempted()
      ensures !first.Completed() && Elements(a2) == Elements(a1) && first.Attempted().Some? ==>
        second.Attempted().Some? && Elements(second.Attempted().value) == Elements(first.Attempted().value)
    {
      first := Run(a1, d1);
      if first.Completed() && Elements(a2) == Elements(a1) {
        StepIdempotent(old(file), a1, a2, d1, d2);
      }
      second := Run(a2, d2);
      if !first.Completed() {
        StepRepeatAborted(old(file), a1, a2, d1, d2);
      }
    }
  }

  /** A run that raised changed nothing: the run after it behaves as if it were the
      first. Given the same titles it hands the notifier the same list again, and
      given them in another order it hands over the same set of titles. So a raising
      enviar_correo is retried, and the snapshot is saved once a retry returns normally. */
  lemma StepRepeatAborted(file: SnapshotFile, a1: seq<Activity>, a2: seq<Activity>, d1: bool, d2: bool)
    requires !Step(file, a1, d1).1.Completed()
    ensures Step(Step(file, a1, d1).0, a2, d2) == Step(file, a2, d2)
    ensures Step(file, a1, d2).1.Attempted() == Step(file, a1, d1).1.Attempted()
    ensures !file.Unreadable? && d2 ==>
      Step(file, a1, d2) == (Holds(a1), Notified(Step(file, a1, d1).1.Attempted().value))
    ensures Elements(a2) == Elements(a1) && Step(file, a1, d1).1.Attempted().Some? ==>
      Step(file, a2, d2).1.Attempted().Some? &&
      Elements(Step(file, a2, d2).1.Attempted().value) == Elements(Step(file, a1, d1).1.Attempted().value)
  {
    if Elements(a2) == Elements(a1) && Step(file, a1, d1).1.Attempted().Some? {
      var previas := Load(file).value;
      var n1 := Diff(a1, previas);
      var n2 := Diff(a2, previas);
      assert Elements(n2) == Elements(n1) by {
        forall x ensures x in n2 <==> x in n1 {
          assert x in a2 <==> x in Elements(a1);
        }
      }
      assert n1[0] in Elements(n2);
    }
  }
}
