/**
 * The CSV import dialog's checks on a parsed file
 * (src/components/ImportDialog.tsx): required headers, the row filter, the
 * dialog state after a drop, the import button and the preview. The CSV
 * parser's output is taken as given: the header row (`meta.fields`, absent
 * when the parser reports none) and one record per data row, each column
 * present or absent.
 */
module ImportDialog {
  import opened Wrappers
  import opened Seqs
  import opened Types

  const RequiredHeaders: seq<string> := ["firstName", "lastName", "roomNumber"]

  /** The number of rows the preview table shows. */
  const PreviewLimit := 100

  /** `h => !actualHeaders.includes(h)` */
  function AbsentFrom(actual: seq<string>): string -> bool {
    h => h !in actual
  }

  /** `requiredHeaders.filter(h => !actualHeaders.includes(h))` with `actualHeaders = meta.fields || []`. */
  function MissingHeaders(fields: Option<seq<string>>): seq<string> {
    Filter(AbsentFrom(fields.GetOr([])), RequiredHeaders)
  }

  /** A JavaScript-truthy cell: present and not the empty string. */
  predicate Truthy(cell: Option<string>) {
    cell.Some? && cell.value != ""
  }

  /** `row.firstName && row.lastName && row.roomNumber` */
  predicate RowComplete(row: AttendeeBody) {
    Truthy(row.firstName) && Truthy(row.lastName) && Truthy(row.roomNumber)
  }

  /** `validData` */
  function KeptRows(rows: seq<AttendeeBody>): seq<AttendeeBody> {
    Filter(RowComplete, rows)
  }

  /** The dialog's `parsedData` and `fileName`. */
  datatype DialogState = DialogState(parsedData: seq<AttendeeBody>, fileName: Option<string>)

  /** The state after a file is dropped and its parse completes. */
  function OnParsed(fileName: string, fields: Option<seq<string>>, rows: seq<AttendeeBody>): DialogState {
    if |MissingHeaders(fields)| > 0 then DialogState([], None)
    else DialogState(KeptRows(rows), Some(fileName))
  }

  /** The Import button is enabled only with rows to send and no import running. */
  function ImportEnabled(st: DialogState, isImporting: bool): bool {
    |st.parsedData| > 0 && !isImporting
  }

  /** `onImport(parsedData)` */
  function ImportPayload(st: DialogState): seq<AttendeeBody> {
    st.parsedData
  }

  /** `parsedData.slice(0, 100)` */
  function Preview(st: DialogState): seq<AttendeeBody> {
    if |st.parsedData| <= PreviewLimit then st.parsedData else st.parsedData[..PreviewLimit]
  }

  /**
   * A header is reported missing exactly when it is required and absent;
   * the report lists them in the fixed order firstName, lastName, roomNumber.
   */
  lemma MissingHeadersSpec(fields: Option<seq<string>>)
    ensures forall h :: h in MissingHeaders(fields) <==> h in RequiredHeaders && h !in fields.GetOr([])
    ensures SubsequenceOf(MissingHeaders(fields), RequiredHeaders)
    ensures fields.None? ==> MissingHeaders(fields) == RequiredHeaders
  {
    FilterMembers(AbsentFrom(fields.GetOr([])), RequiredHeaders);
    FilterIsSubsequence(AbsentFrom(fields.GetOr([])), RequiredHeaders);
    if fields.None? {
      FilterAll(AbsentFrom([]), RequiredHeaders);
    }
  }

  /** Extra columns never make a header missing: adding columns can only shrink the report. */
  lemma ExtraColumnsHarmless(actual: seq<string>, extra: seq<string>)
    ensures forall h :: h in MissingHeaders(Some(actual + extra)) ==> h in MissingHeaders(Some(actual))
    ensures (forall h :: h in RequiredHeaders ==> h in actual) ==> MissingHeaders(Some(actual + extra)) == []
  {
    MissingHeadersSpec(Some(actual + extra));
    MissingHeadersSpec(Some(actual));
    if forall h :: h in RequiredHeaders ==> h in actual {
      FilterNone(AbsentFrom(actual + extra), RequiredHeaders);
    }
  }

  /** A row is kept exactly when the server's attendee validation accepts it. */
  lemma RowCompleteIffValid(row: AttendeeBody)
    ensures RowComplete(row) <==> ParseAttendee(row).Some?
  {
  }

  /**
   * The kept rows are the complete rows, in their original order, never
   * more than were parsed, and every one of them passes attendee validation.
   */
  lemma KeptRowsSpec(rows: seq<AttendeeBody>)
    ensures |KeptRows(rows)| <= |rows|
    ensures SubsequenceOf(KeptRows(rows), rows)
    ensures forall r :: r in KeptRows(rows) <==> r in rows && RowComplete(r)
    ensures forall i :: 0 <= i < |KeptRows(rows)| ==> ParseAttendee(KeptRows(rows)[i]).Some?
  {
    FilterMembers(RowComplete, rows);
    FilterIsSubsequence(RowComplete, rows);
    forall i | 0 <= i < |KeptRows(rows)| ensures ParseAttendee(KeptRows(rows)[i]).Some? {
      assert KeptRows(rows)[i] in KeptRows(rows);
      RowCompleteIffValid(KeptRows(rows)[i]);
    }
  }

  /**
   * After a drop: a missing header resets the dialog (no rows, no file
   * name); otherwise the dialog holds exactly the kept rows. Whatever it
   * then submits passes the bulk route's per-item validation, and the
   * button is disabled when there is nothing to submit.
   */
  lemma OnParsedSpec(fileName: string, fields: Option<seq<string>>, rows: seq<AttendeeBody>, isImporting: bool)
    ensures |MissingHeaders(fields)| > 0 ==> OnParsed(fileName, fields, rows) == DialogState([], None)
    ensures |MissingHeaders(fields)| > 0 ==> !ImportEnabled(OnParsed(fileName, fields, rows), isImporting)
    ensures |MissingHeaders(fields)| == 0 ==>
      ImportPayload(OnParsed(fileName, fields, rows)) == KeptRows(rows)
    ensures forall i :: 0 <= i < |ImportPayload(OnParsed(fileName, fields, rows))| ==>
      ParseAttendee(ImportPayload(OnParsed(fileName, fields, rows))[i]).Some?
    ensures ImportEnabled(OnParsed(fileName, fields, rows), isImporting) ==>
      |ImportPayload(OnParsed(fileName, fields, rows))| > 0
  {
    KeptRowsSpec(rows);
  }

  /** The preview is the first (at most) 100 rows of what would be imported. */
  lemma PreviewSpec(st: DialogState)
    ensures |Preview(st)| == if |st.parsedData| <= PreviewLimit then |st.parsedData| else PreviewLimit
    ensures Preview(st) <= ImportPayload(st)
  {
  }
}
