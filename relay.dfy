/** The row and cell rules of the spreadsheet relay (google-apps-script.js):
    how a record field becomes a cell in the two sync modes, how a batch of
    records becomes rows, and how the "Invitations" sheet is read and
    updated. The class in RelayWorkbook applies these rules to the sheets
    of one spreadsheet.

    A sheet is a sequence of rows of text cells with the header at index 0.
    Rows after the last one with content are invisible to `getLastRow` and
    `getDataRange`; stored sheets never hold them (see `Compact`). */
module Relay {
  import opened JsArray
  import opened JsString

  type Row = seq<string>
  type Sheet = seq<Row>

  // --------------------------------------------------------------- cells

  /** `getValues()` pads every row of the data range with "" on the right. */
  function CellAt(row: Row, c: nat): string
  {
    if c < |row| then row[c] else ""
  }

  function Blanks(n: nat): (r: Row)
    ensures |r| == n
    ensures forall i :: 0 <= i < n ==> r[i] == ""
  {
    seq(n, _ => "")
  }

  /** `getRange(row, c + 1).setValue(v)`: one cell written, the row widened
      with blank cells when it is shorter. */
  function SetCell(row: Row, c: nat, v: string): (r: Row)
    ensures |r| == if c < |row| then |row| else c + 1
    ensures CellAt(r, c) == v
    ensures forall d: nat :: d != c ==> CellAt(r, d) == CellAt(row, d)
  {
    if c < |row| then row[c := v] else row + Blanks(c - |row|) + [v]
  }

  predicate BlankRow(row: Row)
  {
    forall c :: 0 <= c < |row| ==> |row[c]| == 0
  }

  /** A sheet whose last row has content, so that `getLastRow()` is its length. */
  predicate Compact(s: Sheet)
  {
    s == [] || !BlankRow(s[|s| - 1])
  }

  /** The data region: what is left once the blank rows at the bottom are
      gone. A write is followed by this, so stored sheets stay compact. */
  function DataRegion(s: Sheet): (r: Sheet)
    ensures Compact(r)
    ensures r <= s
    ensures Compact(s) ==> r == s
    ensures forall i :: |r| <= i < |s| ==> BlankRow(s[i])
    decreases |s|
  {
    if s == [] || !BlankRow(s[|s| - 1]) then s else DataRegion(s[..|s| - 1])
  }

  /** Writing rows below a compact sheet never disturbs it: the old rows
      stay, the new ones follow in order, and only blank rows at the very
      bottom disappear. */
  lemma {:induction false} RegionAfterAppend(s: Sheet, t: Sheet)
    requires Compact(s)
    ensures s <= DataRegion(s + t) <= s + t
    ensures |t| > 0 && !BlankRow(t[|t| - 1]) ==> DataRegion(s + t) == s + t
    decreases |t|
  {
    if t == [] {
      assert s + t == s;
    } else if BlankRow(t[|t| - 1]) {
      assert (s + t)[..|s + t| - 1] == s + t[..|t| - 1];
      RegionAfterAppend(s, t[..|t| - 1]);
    }
  }

  // ----------------------------------------------------- record fields

  /** A record field as the client posts it. A field that is `null` or
      `undefined` is a key the record lacks. `Other` is any other JSON
      value, with the text `String(v)` gives for it. */
  datatype Value = Bool(b: bool) | Text(s: string) | Other(shown: string)

  type Record = map<string, Value>

  function Field(r: Record, k: string): Option<Value>
  {
    if k in r then Some(r[k]) else None
  }

  /** `String(v)`. */
  function Shown(v: Value): string
  {
    match v
    case Bool(b) => if b then "true" else "false"
    case Text(s) => s
    case Other(shown) => shown
  }

  const CheckMark := "\U{2713}"
  const SignedMark := "[signed]"
  const ApprovedLabel := "\U{2705} Approved"
  const NotApprovedLabel := "\U{274C} Not Approved"
  const PendingLabel := "\U{23F3} Pending"

  /** The cell the `append` mode writes for field `k` of a record. */
  function AppendCell(r: Record, k: string): string
  {
    match Field(r, k)
    case None => ""
    case Some(Bool(b)) => if b then CheckMark else ""
    case Some(v) => Shown(v)
  }

  /** The cell the replace mode writes for field `k` of a record. The
      percentage text for an `alcohol` fraction (`parseFloat(v) <= 1`, then
      `toFixed(1) + '%'`) is floating point and is taken as the parameter
      `percent`, which answers None when the fraction test fails. */
  function ReplaceCell(r: Record, k: string, percent: string -> Option<string>): string
  {
    match Field(r, k)
    case None => ""
    case Some(v) =>
      if k == "signature" then SignedMark
      else if v.Bool? then (if v.b then CheckMark else "")
      else if k == "decision" then
        (if v == Text("approved") then ApprovedLabel
         else if v == Text("notApproved") then NotApprovedLabel
         else PendingLabel)
      else if k == "alcohol" && v.Text? && percent(v.s).Some? then percent(v.s).value
      else Shown(v)
  }

  /** An `append` cell is blank exactly when the field is missing, false,
      or prints as the empty text; true is the check mark and any other
      value is its text. */
  lemma AppendCellCases(r: Record, k: string)
    ensures AppendCell(r, k) == "" <==>
      Field(r, k).None? || Field(r, k) == Some(Bool(false)) || (Field(r, k).Some? && !Field(r, k).value.Bool? && Shown(Field(r, k).value) == "")
    ensures Field(r, k) == Some(Bool(true)) ==> AppendCell(r, k) == CheckMark
    ensures Field(r, k).Some? && !Field(r, k).value.Bool? ==> AppendCell(r, k) == Shown(Field(r, k).value)
  {
  }

  /** Outside the three keys the replace mode treats specially, both modes
      write the same cell. */
  lemma ReplaceAgreesWithAppend(r: Record, k: string, percent: string -> Option<string>)
    requires k != "signature" && k != "decision" && k != "alcohol"
    ensures ReplaceCell(r, k, percent) == AppendCell(r, k)
  {
  }

  /** A present signature never reaches the sheet; a missing one is blank. */
  lemma SignatureRedacted(r: Record, percent: string -> Option<string>)
    ensures ReplaceCell(r, "signature", percent) == if "signature" in r then SignedMark else ""
  {
  }

  /** A present, non-boolean decision is always one of the three labels,
      and it reads "Approved" or "Not Approved" only for exactly those codes. */
  lemma DecisionLabels(r: Record, percent: string -> Option<string>)
    requires "decision" in r && !r["decision"].Bool?
    ensures ReplaceCell(r, "decision", percent) in {ApprovedLabel, NotApprovedLabel, PendingLabel}
    ensures ReplaceCell(r, "decision", percent) == ApprovedLabel <==> r["decision"] == Text("approved")
    ensures ReplaceCell(r, "decision", percent) == NotApprovedLabel <==> r["decision"] == Text("notApproved")
  {
  }

  // ---------------------------------------------------------------- rows

  /** `keys.map(k => …)` in `append` mode. */
  function AppendRow(r: Record, keys: seq<string>): (row: Row)
    ensures |row| == |keys|
  {
    if keys == [] then [] else [AppendCell(r, keys[0])] + AppendRow(r, keys[1..])
  }

  /** `records.map(…)` in `append` mode. */
  function AppendRows(records: seq<Record>, keys: seq<string>): (rows: Sheet)
    ensures |rows| == |records|
  {
    if records == [] then [] else [AppendRow(records[0], keys)] + AppendRows(records[1..], keys)
  }

  /** `keys.map(k => …)` in replace mode. */
  function ReplaceRow(r: Record, keys: seq<string>, percent: string -> Option<string>): (row: Row)
    ensures |row| == |keys|
  {
    if keys == [] then [] else [ReplaceCell(r, keys[0], percent)] + ReplaceRow(r, keys[1..], percent)
  }

  /** `records.map(…)` in replace mode. */
  function ReplaceRows(records: seq<Record>, keys: seq<string>, percent: string -> Option<string>): (rows: Sheet)
    ensures |rows| == |records|
  {
    if records == [] then [] else [ReplaceRow(records[0], keys, percent)] + ReplaceRows(records[1..], keys, percent)
  }

  /** An `append` row has one cell per key, in key order. */
  lemma {:induction false} AppendRowCells(r: Record, keys: seq<string>)
    ensures forall i :: 0 <= i < |keys| ==> AppendRow(r, keys)[i] == AppendCell(r, keys[i])
  {
    if keys != [] {
      AppendRowCells(r, keys[1..]);
    }
  }

  /** The `append` rows are the records' rows, in record order. */
  lemma {:induction false} AppendRowsInOrder(records: seq<Record>, keys: seq<string>)
    ensures forall i :: 0 <= i < |records| ==> AppendRows(records, keys)[i] == AppendRow(records[i], keys)
  {
    if records != [] {
      AppendRowsInOrder(records[1..], keys);
    }
  }

  /** A replace-mode row has one cell per key, in key order. */
  lemma {:induction false} ReplaceRowCells(r: Record, keys: seq<string>, percent: string -> Option<string>)
    ensures forall i :: 0 <= i < |keys| ==> ReplaceRow(r, keys, percent)[i] == ReplaceCell(r, keys[i], percent)
  {
    if keys != [] {
      ReplaceRowCells(r, keys[1..], percent);
    }
  }

  /** The replace-mode rows are the records' rows, in record order. */
  lemma {:induction false} ReplaceRowsInOrder(records: seq<Record>, keys: seq<string>, percent: string -> Option<string>)
    ensures forall i :: 0 <= i < |records| ==> ReplaceRows(records, keys, percent)[i] == ReplaceRow(records[i], keys, percent)
  {
    if records != [] {
      ReplaceRowsInOrder(records[1..], keys, percent);
    }
  }

  /** Two batches appended one after the other give the rows of one batch
      holding both. */
  lemma {:induction false} AppendRowsConcat(a: seq<Record>, b: seq<Record>, keys: seq<string>)
    ensures AppendRows(a + b, keys) == AppendRows(a, keys) + AppendRows(b, keys)
  {
    if a == [] {
      assert a + b == b;
    } else {
      assert (a + b)[1..] == a[1..] + b;
      AppendRowsConcat(a[1..], b, keys);
    }
  }

  // ------------------------------------------------------ the sync modes

  /** The sheet once the `append` mode has written its header: the header
      goes only into an empty sheet. */
  function HeaderWritten(s: Sheet, labels: Row): Sheet
  {
    if s == [] then DataRegion([labels]) else s
  }

  /** The sheet after an `append` with labels and records: the header is
      written only into an empty sheet, and the rows go below the last row
      with content. Without keys no row is written: the range of zero
      columns for the rows throws once the header is in place. */
  function AppendedSheet(s: Sheet, labels: Row, keys: seq<string>, records: seq<Record>): Sheet
  {
    if keys == [] then HeaderWritten(s, labels)
    else DataRegion(HeaderWritten(s, labels) + AppendRows(records, keys))
  }

  /** The sheet after the replace mode: cleared first; with labels and
      records the header is row 1 and the records fill the rows below it.
      Without keys only the header is written, for the same reason. */
  function ReplacedSheet(labels: Row, keys: seq<string>, records: seq<Record>, percent: string -> Option<string>): Sheet
  {
    if labels == [] || records == [] then []
    else if keys == [] then DataRegion([labels])
    else DataRegion([labels] + ReplaceRows(records, keys, percent))
  }

  /** `append` leaves every existing row where it was and adds only the new
      rows, in record order; when the last new row has content the sheet
      grows by exactly one row per record. */
  lemma AppendKeepsExistingRows(s: Sheet, labels: Row, keys: seq<string>, records: seq<Record>)
    requires Compact(s) && s != []
    ensures s <= AppendedSheet(s, labels, keys, records) <= s + AppendRows(records, keys)
    ensures records != [] && !BlankRow(AppendRow(records[|records| - 1], keys)) ==>
      |AppendedSheet(s, labels, keys, records)| == |s| + |records|
  {
    AppendRowsInOrder(records, keys);
    RegionAfterAppend(s, AppendRows(records, keys));
  }

  /** `append` into an empty sheet puts the header first (when it has
      content) and the records below it. */
  lemma AppendIntoEmptySheet(labels: Row, keys: seq<string>, records: seq<Record>)
    requires !BlankRow(labels)
    ensures [labels] <= AppendedSheet([], labels, keys, records) <= [labels] + AppendRows(records, keys)
  {
    RegionAfterAppend([labels], AppendRows(records, keys));
  }

  /** Replace mode: the header is row 1 (when it has content), record `i`
      is row `i + 2` whenever the last record's row has content, and
      nothing of the old sheet survives. */
  lemma ReplaceLayout(labels: Row, keys: seq<string>, records: seq<Record>, percent: string -> Option<string>)
    requires labels != [] && records != []
    ensures ReplacedSheet(labels, keys, records, percent) <= [labels] + ReplaceRows(records, keys, percent)
    ensures !BlankRow(labels) ==>
      |ReplacedSheet(labels, keys, records, percent)| >= 1 && ReplacedSheet(labels, keys, records, percent)[0] == labels
    ensures !BlankRow(ReplaceRow(records[|records| - 1], keys, percent)) ==>
      ReplacedSheet(labels, keys, records, percent) == [labels] + ReplaceRows(records, keys, percent)
  {
    var rows := ReplaceRows(records, keys, percent);
    var s := [labels] + rows;
    if !BlankRow(labels) {
      RegionAfterAppend([labels], rows);
    }
    if !BlankRow(ReplaceRow(records[|records| - 1], keys, percent)) {
      ReplaceRowsInOrder(records, keys, percent);
      assert s[|s| - 1] == rows[|rows| - 1];
      assert Compact(s);
    }
  }

  /** `lastSync_<sheet>.rowCount` after an `append`: the rows below the header. */
  function TotalRows(s: Sheet): int
  {
    |s| - 1
  }

  /** The `rowCount` of `syncStatus`: the rows below the header, never negative. */
  function StatusRowCount(s: Sheet): (n: nat)
    ensures n == 0 <==> |s| <= 1
    ensures |s| >= 1 ==> n + 1 == |s|
  {
    if |s| <= 1 then 0 else |s| - 1
  }

  // --------------------------------------------------------- invitations

  const InvitationsSheet := "Invitations"
  const InviteHeader: Row := ["Token", "Email", "Role", "Status", "Sent At", "Sent By", "Username"]
  const DefaultAppUrl := "https://guymaich-jpg.github.io/Aravadistillery-Factory-Control/"

  const TokenCol: nat := 0
  const EmailCol: nat := 1
  const RoleCol: nat := 2
  const StatusCol: nat := 3
  const SentAtCol: nat := 4
  const SentByCol: nat := 5
  const UsernameCol: nat := 6

  /** The duplicate test of `send_invite` on one row: same email up to
      letter case, and still pending. */
  predicate PendingInviteFor(row: Row, email: string)
  {
    Lower(CellAt(row, EmailCol)) == Lower(email) && CellAt(row, StatusCol) == "pending"
  }

  /** Some data row (below the header) holds a pending invitation for `email`. */
  predicate HasPendingInvite(s: Sheet, email: string)
  {
    exists i :: 1 <= i < |s| && PendingInviteFor(s[i], email)
  }

  /** The row `send_invite` appends. */
  function InviteRow(token: string, email: string, role: string, sentAt: string, sentBy: string): (row: Row)
    ensures |row| == 7 && !BlankRow(row)
    ensures PendingInviteFor(row, email)
  {
    var row := [token, email, if role == "" then "worker" else role, "pending", sentAt, sentBy, ""];
    assert row[StatusCol] != "";
    row
  }

  /** The link mailed with an invitation. */
  function InviteLink(appUrl: string, token: string): string
  {
    (if appUrl == "" then DefaultAppUrl else appUrl) + "#/invite/" + token
  }

  function HasToken(token: string): Row -> bool
  {
    (row: Row) => CellAt(row, TokenCol) == token
  }

  /** Where the `accept_invite` and `getInvite` scans stop: the first data
      row whose token cell equals `token`. */
  function TokenRow(s: Sheet, token: string): (r: Option<nat>)
    ensures r.Some? ==> 1 <= r.value < |s| && CellAt(s[r.value], TokenCol) == token
    ensures r.Some? ==> forall j :: 1 <= j < r.value ==> CellAt(s[j], TokenCol) != token
    ensures r.None? <==> forall j :: 1 <= j < |s| ==> CellAt(s[j], TokenCol) != token
  {
    if s == [] then None
    else
      var found := FindIndex(s[1..], HasToken(token));
      assert forall j :: 1 <= j < |s| ==> s[j] == s[1..][j - 1];
      match found
      case Some(i) => Some(i + 1)
      case None => None
  }

  /** A row once its invitation is accepted: the status is "accepted", the
      username column holds the new username, every other cell is kept. */
  function Accepted(row: Row, username: string): (r: Row)
    ensures CellAt(r, StatusCol) == "accepted" && CellAt(r, UsernameCol) == username
    ensures forall c: nat :: c != StatusCol && c != UsernameCol ==> CellAt(r, c) == CellAt(row, c)
    ensures !BlankRow(r)
  {
    var r := SetCell(SetCell(row, StatusCol, "accepted"), UsernameCol, username);
    assert CellAt(r, StatusCol) == "accepted";
    r
  }

  /** The Invitations sheet after `accept_invite`. */
  function AcceptedSheet(s: Sheet, token: string, username: string): Sheet
  {
    match TokenRow(s, token)
    case Some(j) => s[j := Accepted(s[j], username)]
    case None => s
  }

  /** The `invite` object `getInvite` answers with. */
  datatype Invite = Invite(token: string, email: string, role: string, inviteStatus: string)

  function InviteOf(row: Row): Invite
  {
    Invite(CellAt(row, TokenCol), CellAt(row, EmailCol), CellAt(row, RoleCol), CellAt(row, StatusCol))
  }

  /** What `getInvite` finds in the Invitations sheet; None is `not_found`. */
  function FoundInvite(s: Sheet, token: string): Option<Invite>
  {
    match TokenRow(s, token)
    case Some(j) => Some(InviteOf(s[j]))
    case None => None
  }

  /** One entry of the `listInvites` answer. */
  datatype InviteEntry = InviteEntry(
    token: string, email: string, role: string, status: string,
    sentAt: string, sentBy: string, username: string)

  function EntryOf(row: Row): InviteEntry
  {
    InviteEntry(CellAt(row, TokenCol), CellAt(row, EmailCol), CellAt(row, RoleCol), CellAt(row, StatusCol),
                CellAt(row, SentAtCol), CellAt(row, SentByCol), CellAt(row, UsernameCol))
  }

  function EntriesOf(rows: Sheet): (r: seq<InviteEntry>)
    ensures |r| == |rows|
    ensures forall i :: 0 <= i < |rows| ==> r[i] == EntryOf(rows[i])
  {
    if rows == [] then [] else [EntryOf(rows[0])] + EntriesOf(rows[1..])
  }

  /** The `listInvites` answer: one entry per data row, in sheet order,
      the header left out. */
  function InviteEntries(s: Sheet): (r: seq<InviteEntry>)
    ensures |r| == StatusRowCount(s)
    ensures forall i :: 0 <= i < |r| ==> r[i] == EntryOf(s[i + 1])
  {
    if |s| <= 1 then [] else EntriesOf(s[1..])
  }

  /** Once `send_invite` has appended a row below the header, a second
      invitation for the same email, in any letter case, is a duplicate. */
  lemma SentInviteBlocksResend(s: Sheet, token: string, email: string, role: string,
                               sentAt: string, sentBy: string, email2: string)
    requires s != []
    requires Lower(email2) == Lower(email)
    ensures HasPendingInvite(s + [InviteRow(token, email, role, sentAt, sentBy)], email2)
  {
    var after := s + [InviteRow(token, email, role, sentAt, sentBy)];
    assert PendingInviteFor(after[|s|], email2);
  }

  /** An invitation sent with a new token is what `getInvite` then finds,
      still pending. */
  lemma SentInviteIsFound(s: Sheet, token: string, email: string, role: string, sentAt: string, sentBy: string)
    requires s != []
    requires TokenRow(s, token).None?
    ensures FoundInvite(s + [InviteRow(token, email, role, sentAt, sentBy)], token) ==
      Some(Invite(token, email, if role == "" then "worker" else role, "pending"))
  {
    var row := InviteRow(token, email, role, sentAt, sentBy);
    var after := s + [row];
    forall j | 1 <= j < |s| ensures CellAt(after[j], TokenCol) != token {
      assert after[j] == s[j];
    }
    assert CellAt(after[|s|], TokenCol) == token;
    assert TokenRow(after, token) == Some(|s|);
  }

  /** A sent invitation is the last entry `listInvites` reports; the earlier
      entries are as before. */
  lemma SentInviteIsListed(s: Sheet, token: string, email: string, role: string, sentAt: string, sentBy: string)
    requires s != []
    ensures InviteEntries(s + [InviteRow(token, email, role, sentAt, sentBy)]) ==
      InviteEntries(s) + [InviteEntry(token, email, if role == "" then "worker" else role, "pending", sentAt, sentBy, "")]
  {
    var row := InviteRow(token, email, role, sentAt, sentBy);
    var after := s + [row];
    var listed := InviteEntries(after);
    var expected := InviteEntries(s) + [EntryOf(row)];
    assert |listed| == |expected|;
    forall i | 0 <= i < |listed| ensures listed[i] == expected[i] {
      if i < |s| - 1 {
        assert after[i + 1] == s[i + 1];
      }
    }
  }

  /** As written, `send_invite` writes the header only into a sheet it
      creates itself. An Invitations sheet that already exists but is empty
      (an `append` sync naming it without labels leaves one) gets the first
      invitation in row 1, which the duplicate scan, `getInvite` and
      `listInvites` all skip: the invitation may be sent again, is never
      found and is never listed. */
  lemma AsWrittenFirstInviteUnseen(token: string, email: string, role: string, sentAt: string, sentBy: string)
    ensures var after := [] + [InviteRow(token, email, role, sentAt, sentBy)];
      && !HasPendingInvite(after, email)
      && FoundInvite(after, token).None?
      && InviteEntries(after) == []
  {
    var after := [] + [InviteRow(token, email, role, sentAt, sentBy)];
    assert |after| == 1;
  }

  /** The Invitations sheet `send_invite` appends to, with the header rule
      corrected: an empty sheet gets its header first, whether or not
      `send_invite` created it. */
  function WithInviteHeader(s: Sheet): Sheet
  {
    if s == [] then [InviteHeader] else s
  }

  /** With the corrected header rule the first invitation is seen like every
      later one, whatever the sheet held: a resend is a duplicate, a new
      token is found pending, and the invitation is listed last. */
  lemma FirstInviteSeen(s: Sheet, token: string, email: string, role: string, sentAt: string, sentBy: string)
    ensures var before := WithInviteHeader(s);
      var after := before + [InviteRow(token, email, role, sentAt, sentBy)];
      && HasPendingInvite(after, email)
      && (TokenRow(before, token).None? ==>
            FoundInvite(after, token) == Some(Invite(token, email, if role == "" then "worker" else role, "pending")))
      && InviteEntries(after) ==
           InviteEntries(before) + [InviteEntry(token, email, if role == "" then "worker" else role, "pending", sentAt, sentBy, "")]
  {
    var before := WithInviteHeader(s);
    SentInviteBlocksResend(before, token, email, role, sentAt, sentBy, email);
    if TokenRow(before, token).None? {
      SentInviteIsFound(before, token, email, role, sentAt, sentBy);
    }
    SentInviteIsListed(before, token, email, role, sentAt, sentBy);
  }

  /** After `accept_invite`, `getInvite` finds the same row, now accepted;
      its token, email and role are unchanged. */
  lemma AcceptThenFind(s: Sheet, token: string, username: string)
    requires TokenRow(s, token).Some?
    ensures TokenRow(AcceptedSheet(s, token, username), token) == TokenRow(s, token)
    ensures FoundInvite(AcceptedSheet(s, token, username), token) ==
      Some(InviteOf(s[TokenRow(s, token).value]).(inviteStatus := "accepted"))
  {
    var j := TokenRow(s, token).value;
    var after := AcceptedSheet(s, token, username);
    assert after == s[j := Accepted(s[j], username)];
    forall k | 1 <= k < j ensures CellAt(after[k], TokenCol) != token {
      assert after[k] == s[k];
    }
    assert CellAt(after[j], TokenCol) == token;
    assert TokenRow(after, token) == Some(j);
  }

  /** Accepting the same invitation twice with the same username is
      accepting it once. */
  lemma AcceptIdempotent(s: Sheet, token: string, username: string)
    ensures AcceptedSheet(AcceptedSheet(s, token, username), token, username) == AcceptedSheet(s, token, username)
  {
    var once := AcceptedSheet(s, token, username);
    match TokenRow(s, token)
    case None =>
    case Some(j) =>
      AcceptThenFind(s, token, username);
      var row := Accepted(s[j], username);
      var twice := Accepted(row, username);
      assert |twice| == |row|;
      forall c | 0 <= c < |row| ensures twice[c] == row[c] {
        assert CellAt(twice, c) == CellAt(row, c);
      }
      assert twice == row;
      assert once[j] == row;
      assert AcceptedSheet(once, token, username) == once[j := twice];
  }

  /** Accepting an invitation never touches any other row. */
  lemma AcceptTouchesOneRow(s: Sheet, token: string, username: string)
    ensures |AcceptedSheet(s, token, username)| == |s|
    ensures forall i :: 0 <= i < |s| && Some(i) != TokenRow(s, token) ==> AcceptedSheet(s, token, username)[i] == s[i]
  {
  }
}
