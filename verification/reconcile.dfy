/**
 * UpdateFtpFile: the per-file decision between the remote file, the ledger
 * rows that share its key and the local download directory, and the ledger
 * writes that follow a download. The ledger is a sequence of rows; the
 * download itself is an outcome handed in by the caller.
 */
module Reconcile {
  import opened Wrappers
  import opened Hierarchy
  import Text
  import Paths

  /** A remote file as the reconciliation sees it through IFile. */
  datatype RemoteFile = RemoteFile(name: string, baseName: string, fileExt: string, version: int)

  /** A VDC_FILES row. */
  datatype LedgerRow = LedgerRow(
    projectNumber: int,
    externalName: string,
    extension: string,
    version: Option<int>,
    status: string,
    level: string,
    trade: string,
    isParent: int,
    action: string)

  type Ledger = seq<LedgerRow>

  /** The key a remote file is looked up by. */
  datatype Key = Key(projectNumber: int, baseName: string, fileExt: string)

  function KeyOf(projectNumber: int, f: RemoteFile): Key {
    Key(projectNumber, f.baseName, f.fileExt)
  }

  /** The lookup: exact on the project number, upper-cased on base name and extension. */
  predicate RowMatches(row: LedgerRow, k: Key) {
    && row.projectNumber == k.projectNumber
    && Text.Upper(row.externalName) == Text.Upper(k.baseName)
    && Text.Upper(row.extension) == Text.Upper(k.fileExt)
  }

  /** The WHERE clause of the version update: every column compared exactly. */
  predicate RowIsExactly(row: LedgerRow, k: Key) {
    row.projectNumber == k.projectNumber && row.externalName == k.baseName && row.extension == k.fileExt
  }

  /** The ledger rows the lookup finds, in ledger order. */
  function MatchingRows(ledger: Ledger, k: Key): (r: seq<LedgerRow>)
    ensures |r| <= |ledger|
    ensures forall row :: row in r <==> row in ledger && RowMatches(row, k)
  {
    if ledger == [] then []
    else (if RowMatches(ledger[0], k) then [ledger[0]] else []) + MatchingRows(ledger[1..], k)
  }

  /**
   * The lookup keeps every copy of a matching row, so two identical rows
   * under one key are two rows found, which the duplicate test sees.
   */
  lemma {:induction false} MatchingRowsCount(ledger: Ledger, k: Key)
    ensures forall row :: multiset(MatchingRows(ledger, k))[row] == if RowMatches(row, k) then multiset(ledger)[row] else 0
  {
    if ledger != [] {
      assert ledger == [ledger[0]] + ledger[1..];
      MatchingRowsCount(ledger[1..], k);
    }
  }

  lemma {:induction false} MatchingRowsAppend(a: Ledger, b: Ledger, k: Key)
    ensures MatchingRows(a + b, k) == MatchingRows(a, k) + MatchingRows(b, k)
  {
    if a == [] {
      assert a + b == b;
    } else {
      assert (a + b)[0] == a[0];
      assert (a + b)[1..] == a[1..] + b;
      MatchingRowsAppend(a[1..], b, k);
    }
  }

  /** Two keys the lookup cannot tell apart. */
  predicate SameKey(k1: Key, k2: Key) {
    && k1.projectNumber == k2.projectNumber
    && Text.Upper(k1.baseName) == Text.Upper(k2.baseName)
    && Text.Upper(k1.fileExt) == Text.Upper(k2.fileExt)
  }

  /** The lookup finds the same rows for keys that differ only in letter case. */
  lemma {:induction false} MatchingRowsIgnoreCase(ledger: Ledger, k1: Key, k2: Key)
    requires SameKey(k1, k2)
    ensures MatchingRows(ledger, k1) == MatchingRows(ledger, k2)
  {
    if ledger != [] {
      MatchingRowsIgnoreCase(ledger[1..], k1, k2);
    }
  }

  lemma UpperIdempotent(s: string)
    ensures Text.Upper(Text.Upper(s)) == Text.Upper(s)
  {
  }

  /** Upper-casing a remote name before splitting it does not change which rows it is matched with. */
  lemma UpperCasedNameMatchesSameRows(ledger: Ledger, projectNumber: int, name: string)
    ensures MatchingRows(ledger, Key(projectNumber, Paths.BaseName(Text.Upper(name)), Paths.FileExt(Text.Upper(name))))
         == MatchingRows(ledger, Key(projectNumber, Paths.BaseName(name), Paths.FileExt(name)))
  {
    Text.UpperCommutesWithSplit(name);
    UpperIdempotent(Paths.BaseName(name));
    UpperIdempotent(Paths.FileExt(name));
    MatchingRowsIgnoreCase(ledger,
      Key(projectNumber, Paths.BaseName(Text.Upper(name)), Paths.FileExt(Text.Upper(name))),
      Key(projectNumber, Paths.BaseName(name), Paths.FileExt(name)));
  }

  /** The four per-source counters a processed file is tallied under. */
  datatype Disposition = Added | Updated | Ignored | AlreadyUpToDate

  /** A ledger write: none, InsertNewInternalFileRecord, or UpdateInternalFileVersion. */
  datatype LedgerWrite = NoWrite | Insert(row: LedgerRow) | SetVersion(key: Key, version: int)

  /** What UpdateFtpFile does with one remote file. */
  datatype Decision = Decision(disposition: Disposition, download: bool, write: LedgerWrite)

  /** The row InsertNewInternalFileRecord writes. */
  function NewRow(k: Key, version: int): (r: LedgerRow)
    ensures RowMatches(r, k) && RowIsExactly(r, k)
    ensures r.version == Some(version) && r.status == "Downloaded"
  {
    LedgerRow(k.projectNumber, k.baseName, k.fileExt, Some(version), "Downloaded", "NOLEVEL", "MISC", 0, "COPY")
  }

  /** The version the comparison reads from the ledger: a null version counts as 0. */
  function StoredVersion(row: LedgerRow): int {
    row.version.GetOr(0)
  }

  /**
   * The decision table: a duplicated key is an error; no row means Added; a
   * missing local copy means Updated; otherwise the remote version is
   * compared with the stored one.
   */
  function Decide(ledger: Ledger, localPresent: bool, projectNumber: int, f: RemoteFile): (r: Result<Decision, Error>)
    ensures var rows := MatchingRows(ledger, KeyOf(projectNumber, f));
            && (r.Failure? <==> |rows| > 1)
            && (r.Failure? ==> r.error == DuplicateRecord(f.name))
            && (|rows| == 0 ==> r == Success(Decision(Added, true, Insert(NewRow(KeyOf(projectNumber, f), f.version)))))
            && (|rows| == 1 && !localPresent ==>
                  r == Success(Decision(Updated, true, SetVersion(KeyOf(projectNumber, f), f.version))))
            && (|rows| == 1 && localPresent && f.version > StoredVersion(rows[0]) ==>
                  r == Success(Decision(Updated, true, SetVersion(KeyOf(projectNumber, f), f.version))))
            && (|rows| == 1 && localPresent && f.version < StoredVersion(rows[0]) ==>
                  r == Success(Decision(Ignored, false, NoWrite)))
            && (|rows| == 1 && localPresent && f.version == StoredVersion(rows[0]) ==>
                  r == Success(Decision(AlreadyUpToDate, false, NoWrite)))
    ensures r.Success? ==>
              && (r.value.download <==> r.value.disposition == Added || r.value.disposition == Updated)
              && (r.value.write.NoWrite? <==> !r.value.download)
  {
    var k := KeyOf(projectNumber, f);
    var rows := MatchingRows(ledger, k);
    if |rows| > 1 then Failure(DuplicateRecord(f.name))
    else if |rows| == 0 then Success(Decision(Added, true, Insert(NewRow(k, f.version))))
    else if !localPresent then Success(Decision(Updated, true, SetVersion(k, f.version)))
    else if f.version > StoredVersion(rows[0]) then Success(Decision(Updated, true, SetVersion(k, f.version)))
    else if f.version < StoredVersion(rows[0]) then Success(Decision(Ignored, false, NoWrite))
    else Success(Decision(AlreadyUpToDate, false, NoWrite))
  }

  /** The columns UpdateInternalFileVersion sets. */
  function Stamp(row: LedgerRow, version: int): LedgerRow {
    row.(version := Some(version), status := "Downloaded")
  }

  /** Which rows an update touches: the exact WHERE clause, or the lookup's own key. */
  predicate Selects(row: LedgerRow, k: Key, exact: bool) {
    if exact then RowIsExactly(row, k) else RowMatches(row, k)
  }

  /** An UPDATE: every selected row is stamped with the version, the others are kept. */
  function Restamp(ledger: Ledger, k: Key, version: int, exact: bool): (r: Ledger)
    ensures |r| == |ledger|
    ensures forall i :: 0 <= i < |ledger| ==>
              r[i] == (if Selects(ledger[i], k, exact) then Stamp(ledger[i], version) else ledger[i])
  {
    if ledger == [] then []
    else [if Selects(ledger[0], k, exact) then Stamp(ledger[0], version) else ledger[0]]
         + Restamp(ledger[1..], k, version, exact)
  }

  /** After the case-insensitive update, the lookup finds as many rows as before, all at the new version. */
  lemma {:induction false} RestampMatching(ledger: Ledger, k: Key, version: int)
    ensures |MatchingRows(Restamp(ledger, k, version, false), k)| == |MatchingRows(ledger, k)|
    ensures forall row :: row in MatchingRows(Restamp(ledger, k, version, false), k) ==>
              row.version == Some(version)
  {
    if ledger != [] {
      var r := Restamp(ledger, k, version, false);
      assert r == [r[0]] + r[1..];
      assert r[1..] == Restamp(ledger[1..], k, version, false);
      RestampMatching(ledger[1..], k, version);
    }
  }

  /** A row the exact WHERE clause misses keeps its stored version. */
  lemma {:induction false} ExactUpdateMisses(ledger: Ledger, k: Key, version: int)
    requires forall i :: 0 <= i < |ledger| ==> !RowIsExactly(ledger[i], k)
    ensures Restamp(ledger, k, version, true) == ledger
  {
    if ledger != [] {
      ExactUpdateMisses(ledger[1..], k, version);
    }
  }

  /** The ledger writes as the program issues them: the update selects rows by exact comparison. */
  function ApplyWriteAsWritten(ledger: Ledger, w: LedgerWrite): (r: Ledger)
    ensures w.NoWrite? ==> r == ledger
    ensures w.Insert? ==> r == ledger + [w.row]
    ensures w.SetVersion? ==>
              && |r| == |ledger|
              && (forall i :: 0 <= i < |ledger| && RowIsExactly(ledger[i], w.key) ==> r[i] == Stamp(ledger[i], w.version))
              && forall i :: 0 <= i < |ledger| && !RowIsExactly(ledger[i], w.key) ==> r[i] == ledger[i]
  {
    match w
    case NoWrite => ledger
    case Insert(row) => ledger + [row]
    case SetVersion(k, v) => Restamp(ledger, k, v, true)
  }

  /** The ledger writes with the update selecting the rows the lookup found. */
  function ApplyWrite(ledger: Ledger, w: LedgerWrite): (r: Ledger)
    ensures w.NoWrite? ==> r == ledger
    ensures w.Insert? ==> r == ledger + [w.row]
    ensures w.SetVersion? ==>
              && |r| == |ledger|
              && |MatchingRows(r, w.key)| == |MatchingRows(ledger, w.key)|
              && (forall row :: row in MatchingRows(r, w.key) ==> row.version == Some(w.version))
              && (forall i :: 0 <= i < |ledger| && RowMatches(ledger[i], w.key) ==> r[i] == Stamp(ledger[i], w.version))
              && forall i :: 0 <= i < |ledger| && !RowMatches(ledger[i], w.key) ==> r[i] == ledger[i]
  {
    match w
    case NoWrite => ledger
    case Insert(row) => ledger + [row]
    case SetVersion(k, v) =>
      RestampMatching(ledger, k, v);
      Restamp(ledger, k, v, false)
  }

  /** How the version update picks its rows: the program's exact WHERE clause, or the rows the lookup found. */
  datatype UpdateRule = ExactWhere | LookupWhere

  function Write(rule: UpdateRule, ledger: Ledger, w: LedgerWrite): Ledger {
    match rule
    case ExactWhere => ApplyWriteAsWritten(ledger, w)
    case LookupWhere => ApplyWrite(ledger, w)
  }

  /**
   * The ledger and the names present in the download directory. The names
   * are kept upper-cased: the Windows file system File.Exists asks finds a
   * file whatever the letter case of the name.
   */
  datatype Store = Store(ledger: Ledger, local: set<string>)

  predicate IsLocal(st: Store, name: string) {
    Text.Upper(name) in st.local
  }

  datatype FileResult = FileResult(store: Store, disposition: Disposition)

  /**
   * UpdateFtpFile: decide, download when the decision says so, and only
   * after the download has returned apply the ledger write. A failed
   * download propagates its error and nothing is written. The program
   * updates with ExactWhere.
   */
  function ReconcileFile(st: Store, projectNumber: int, rule: UpdateRule, f: RemoteFile, download: Outcome<Error>)
    : (r: Result<FileResult, Error>)
    ensures var d := Decide(st.ledger, IsLocal(st, f.name), projectNumber, f);
            r.Failure? <==> d.Failure? || (d.value.download && download.Fail?)
    ensures r.Failure? ==> r.error == DuplicateRecord(f.name) || download == Fail(r.error)
    ensures r.Success? ==>
              var d := r.value.disposition;
              && (d == Ignored || d == AlreadyUpToDate ==> r.value.store == st)
              && (d == Added || d == Updated ==>
                    download == Pass && r.value.store.local == st.local + {Text.Upper(f.name)})
              && |r.value.store.ledger| == |st.ledger| + (if d == Added then 1 else 0)
  {
    match Decide(st.ledger, IsLocal(st, f.name), projectNumber, f)
    case Failure(e) => Failure(e)
    case Success(d) =>
      if !d.download then Success(FileResult(st, d.disposition))
      else
        match download
        case Fail(e) => Failure(e)
        case Pass =>
          Success(FileResult(Store(Write(rule, st.ledger, d.write), st.local + {Text.Upper(f.name)}), d.disposition))
  }

  /**
   * What one reconciliation does to the ledger: a duplicate key fails before
   * any download; the disposition is the decision's; Added inserts the one
   * row of the key at the remote version; Updated stamps exactly the rows the
   * update rule selects.
   */
  lemma ReconcileFileEffects(st: Store, projectNumber: int, rule: UpdateRule, f: RemoteFile, download: Outcome<Error>)
    ensures var rows := MatchingRows(st.ledger, KeyOf(projectNumber, f));
            |rows| > 1 ==> ReconcileFile(st, projectNumber, rule, f, download) == Failure(DuplicateRecord(f.name))
    ensures var r := ReconcileFile(st, projectNumber, rule, f, download);
            r.Success? ==>
              var d := r.value.disposition;
              var k := KeyOf(projectNumber, f);
              var after := r.value.store.ledger;
              && Decide(st.ledger, IsLocal(st, f.name), projectNumber, f).Success?
              && d == Decide(st.ledger, IsLocal(st, f.name), projectNumber, f).value.disposition
              && (d == Added ==>
                    && after == st.ledger + [NewRow(k, f.version)]
                    && MatchingRows(after, k) == [NewRow(k, f.version)])
              && (d == Updated ==>
                    && |MatchingRows(st.ledger, k)| == 1
                    && |after| == |st.ledger|
                    && forall i :: 0 <= i < |st.ledger| ==>
                         after[i] == if Selects(st.ledger[i], k, rule == ExactWhere) then Stamp(st.ledger[i], f.version)
                                     else st.ledger[i])
  {
    var k := KeyOf(projectNumber, f);
    var decision := Decide(st.ledger, IsLocal(st, f.name), projectNumber, f);
    if decision.Success? && decision.value.write.Insert? {
      MatchingRowsAppend(st.ledger, [decision.value.write.row], k);
      assert MatchingRows([decision.value.write.row], k) == [decision.value.write.row];
    }
  }

  /**
   * With the corrected update, after Added or Updated the key has exactly one
   * row, and it holds the remote version.
   */
  lemma CorrectedUpdateLeavesOneCurrentRow(st: Store, projectNumber: int, f: RemoteFile, download: Outcome<Error>)
    ensures var r := ReconcileFile(st, projectNumber, LookupWhere, f, download);
            r.Success? && r.value.disposition in {Added, Updated} ==>
              var rows := MatchingRows(r.value.store.ledger, KeyOf(projectNumber, f));
              |rows| == 1 && rows[0].version == Some(f.version)
  {
    ReconcileFileEffects(st, projectNumber, LookupWhere, f, download);
    var k := KeyOf(projectNumber, f);
    var decision := Decide(st.ledger, IsLocal(st, f.name), projectNumber, f);
    if decision.Success? && decision.value.write.SetVersion? {
      RestampMatching(st.ledger, k, f.version);
    }
  }

  /** With the corrected update, reconciliation is idempotent: after Added or Updated, the same file is already up to date. */
  lemma SecondPassUpToDate(st: Store, projectNumber: int, f: RemoteFile, again: Outcome<Error>)
    requires ReconcileFile(st, projectNumber, LookupWhere, f, Pass).Success?
    requires ReconcileFile(st, projectNumber, LookupWhere, f, Pass).value.disposition in {Added, Updated}
    ensures var next := ReconcileFile(st, projectNumber, LookupWhere, f, Pass).value.store;
            ReconcileFile(next, projectNumber, LookupWhere, f, again) == Success(FileResult(next, AlreadyUpToDate))
  {
    CorrectedUpdateLeavesOneCurrentRow(st, projectNumber, f, Pass);
  }

  /** A remote file whose version is unknown (-1) never replaces a present local copy. */
  lemma UnknownVersionIgnored(st: Store, projectNumber: int, rule: UpdateRule, f: RemoteFile, download: Outcome<Error>)
    requires f.version == -1 && IsLocal(st, f.name)
    requires |MatchingRows(st.ledger, KeyOf(projectNumber, f))| == 1
    requires forall row :: row in MatchingRows(st.ledger, KeyOf(projectNumber, f)) ==> row.version.None? || 0 <= row.version.value
    ensures ReconcileFile(st, projectNumber, rule, f, download) == Success(FileResult(st, Ignored))
  {
    var rows := MatchingRows(st.ledger, KeyOf(projectNumber, f));
    assert rows[0] in rows;
  }

  /** The row and remote file of the ledger finding: the row was stored with an upper-cased name. */
  const StaleRow: LedgerRow := LedgerRow(1, "PLAN", "PDF", Some(2), "Downloaded", "NOLEVEL", "MISC", 0, "COPY")
  const RenamedRemote: RemoteFile := RemoteFile("Plan.pdf", "Plan", "pdf", 3)

  /**
   * As written, a row the lookup finds only case-insensitively is never
   * updated: the same remote file is re-downloaded as Updated on every pass.
   */
  lemma CaseVariantRowStaysStale()
    ensures var st := Store([StaleRow], {"PLAN.PDF"});
            ReconcileFile(st, 1, ExactWhere, RenamedRemote, Pass) == Success(FileResult(st, Updated))
    ensures var k := KeyOf(1, RenamedRemote);
            var d := Decide([StaleRow], true, 1, RenamedRemote);
            && d == Success(Decision(Updated, true, SetVersion(k, 3)))
            && ApplyWriteAsWritten([StaleRow], d.value.write) == [StaleRow]
            && Decide(ApplyWriteAsWritten([StaleRow], d.value.write), true, 1, RenamedRemote) == d
  {
    var k := KeyOf(1, RenamedRemote);
    assert Text.Upper("PLAN") == "PLAN";
    assert Text.Upper("Plan") == "PLAN";
    assert Text.Upper("PDF") == "PDF";
    assert Text.Upper("pdf") == "PDF";
    assert Text.Upper("Plan.pdf") == "PLAN.PDF";
    assert RowMatches(StaleRow, k);
    assert MatchingRows([StaleRow], k) == [StaleRow];
    assert !RowIsExactly([StaleRow][0], k);
    ExactUpdateMisses([StaleRow], k, 3);
    var st := Store([StaleRow], {"PLAN.PDF"});
    assert IsLocal(st, RenamedRemote.name);
    assert Write(ExactWhere, [StaleRow], SetVersion(k, 3)) == [StaleRow];
    assert st.local + {Text.Upper(RenamedRemote.name)} == st.local;
  }
}
