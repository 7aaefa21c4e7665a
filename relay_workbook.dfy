/** The spreadsheet the relay writes to, as one object: its sheets by name,
    the `lastSync_<sheet>` script properties, and the mail sent. `doPost`
    and `doGet` become methods that update and read these fields; what
    they write is stated with the functions of module Relay. */
module RelayWorkbook {
  import opened JsArray
  import opened JsString
  import opened Relay

  /** The `lastSync_<sheet>` property: the mode, the row count it reports
      and the time of the sync (an ISO text taken as a parameter). */
  datatype SyncMark = SyncMark(action: string, rowCount: int, timestamp: string)

  /** An invitation mail that went out: its recipient and the link in it. */
  datatype Mail = Mail(to: string, link: string)

  /** The JSON bodies `doPost` answers with. */
  datatype PostReply =
    | Notified                                  // {ok: true, action: 'notify'}
    | Duplicate                                 // {ok: false, error: 'duplicate'}
    | InviteSent                                // {ok: true, action: 'send_invite'}
    | InviteAccepted                            // {ok: true, action: 'accept_invite'}
    | Appended(rows: nat, totalRows: int)       // {ok: true, action: 'append', rows, totalRows}
    | AppendedNothing                           // {ok: true, action: 'append', rows: 0}
    | Replaced(rows: nat)                       // {ok: true, rows}
    | Failed                                    // {error: err.message}

  /** The posted JSON. An absent `token` is None: as `undefined` it equals
      no cell. Any other text field the payload lacks is ""; an absent
      `labels` or `records` is the empty list (the source tests both alike). */
  datatype Payload = Payload(
    action: string, sheetName: string, labels: Row, keys: seq<string>, records: seq<Record>,
    email: string, token: Option<string>, role: string, appUrl: string, sentBy: string, username: string)

  /** The answer of `syncStatus`. */
  datatype SyncStatus = SyncStatus(sheet: string, sheetExists: bool, rowCount: nat, lastSync: Option<SyncMark>)

  /** The JSON bodies `doGet` answers with. */
  datatype GetReply =
    | Health
    | Status(status: SyncStatus)
    | InviteFound(invite: Invite)
    | InviteNotFound
    | InviteList(invites: seq<InviteEntry>)

  predicate IsReplaceAction(action: string)
  {
    action != "notify" && action != "send_invite" && action != "accept_invite" && action != "append"
  }

  /** Storing a compact sheet keeps every stored sheet compact. */
  lemma StoreKeepsCompact(m: map<string, Sheet>, name: string, s: Sheet)
    requires forall n :: n in m ==> Compact(m[n])
    requires Compact(s)
    ensures var updated := m[name := s]; forall n :: n in updated ==> Compact(updated[n])
  {
  }

  /** The duplicate scan of `send_invite`: the data rows are searched for
      a pending invitation to the same email, up to letter case. */
  method FindPendingInvite(sheet: Sheet, email: string) returns (found: bool)
    ensures found == HasPendingInvite(sheet, email)
  {
    var i := 1;
    while i < |sheet|
      invariant 1 <= i && (i <= |sheet| || i == 1)
      invariant forall j :: 1 <= j < i ==> !PendingInviteFor(sheet[j], email)
    {
      if Lower(CellAt(sheet[i], EmailCol)) == Lower(email) && CellAt(sheet[i], StatusCol) == "pending" {
        return true;
      }
      i := i + 1;
    }
    return false;
  }

  /** The token scan of `accept_invite` and `getInvite`: the first data
      row holding the token. */
  method FindToken(sheet: Sheet, token: string) returns (found: Option<nat>)
    ensures found == TokenRow(sheet, token)
  {
    var j := 1;
    while j < |sheet|
      invariant 1 <= j && (j <= |sheet| || j == 1)
      invariant forall k :: 1 <= k < j ==> CellAt(sheet[k], TokenCol) != token
    {
      if CellAt(sheet[j], TokenCol) == token {
        return Some(j);
      }
      j := j + 1;
    }
    return None;
  }

  /** A sheet written twice holds what was written last. */
  lemma StoreTwice(m: map<string, Sheet>, name: string, first: Sheet, second: Sheet)
    ensures m[name := first][name := second] == m[name := second]
  {
  }

  /** Writing back the sheet that is there changes nothing. */
  lemma StoreSame(m: map<string, Sheet>, name: string)
    requires name in m
    ensures m[name := m[name]] == m
  {
  }

  class Workbook {
    var sheets: map<string, Sheet>
    var lastSync: map<string, SyncMark>
    var outbox: seq<Mail>

    /** Every stored sheet ends with a row that has content. */
    ghost predicate Valid()
      reads this
    {
      forall name :: name in sheets ==> Compact(sheets[name])
    }

    constructor ()
      ensures Valid()
      ensures sheets == map[] && lastSync == map[] && outbox == []
    {
      sheets := map[];
      lastSync := map[];
      outbox := [];
    }

    /** `send_invite`: the Invitations sheet is created with its header when
        absent, and given its header when empty (the corrected rule of
        `WithInviteHeader`); a pending invitation for the same email (up to
        letter case) in a data row is refused; otherwise one row is appended
        and the mail is attempted. The reply is InviteSent even when the mail
        fails. */
    method SendInvite(email: string, token: string, role: string, appUrl: string, sentBy: string,
                      sentAt: string, mailDelivered: bool) returns (reply: PostReply)
      requires Valid()
      modifies this`sheets, this`outbox
      ensures Valid()
      ensures var before := WithInviteHeader(if InvitationsSheet in old(sheets) then old(sheets)[InvitationsSheet] else []);
        && (HasPendingInvite(before, email) ==>
              reply == Duplicate && sheets == old(sheets)[InvitationsSheet := before] && outbox == old(outbox))
        && (!HasPendingInvite(before, email) ==>
              && reply == InviteSent
              && sheets == old(sheets)[InvitationsSheet := before + [InviteRow(token, email, role, sentAt, sentBy)]]
              && outbox == old(outbox) + (if mailDelivered then [Mail(email, InviteLink(appUrl, token))] else []))
    {
      var sheet: Sheet;
      if InvitationsSheet in sheets && sheets[InvitationsSheet] != [] {
        sheet := sheets[InvitationsSheet];
        StoreSame(sheets, InvitationsSheet);
      } else {
        sheet := [InviteHeader];
        assert |InviteHeader[0]| != 0;
        Store(InvitationsSheet, sheet);
      }
      var duplicate := FindPendingInvite(sheet, email);
      if duplicate {
        return Duplicate;
      }
      var row := InviteRow(token, email, role, sentAt, sentBy);
      Store(InvitationsSheet, sheet + [row]);
      StoreTwice(old(sheets), InvitationsSheet, sheet, sheet + [row]);
      if mailDelivered {
        outbox := outbox + [Mail(email, InviteLink(appUrl, token))];
      }
      return InviteSent;
    }

    /** `accept_invite`: the first data row with this token is marked
        accepted with the username; the reply is the same whether or not
        the sheet or the token exists. An absent token matches no row. */
    method AcceptInvite(token: Option<string>, username: string) returns (reply: PostReply)
      requires Valid()
      modifies this`sheets
      ensures Valid()
      ensures reply == InviteAccepted
      ensures sheets == if InvitationsSheet in old(sheets) && token.Some?
                        then old(sheets)[InvitationsSheet := AcceptedSheet(old(sheets)[InvitationsSheet], token.value, username)]
                        else old(sheets)
    {
      if InvitationsSheet in sheets && token.Some? {
        var sheet := sheets[InvitationsSheet];
        var found := FindToken(sheet, token.value);
        if found.Some? {
          var j := found.value;
          sheets := sheets[InvitationsSheet := sheet[j := Accepted(sheet[j], username)]];
        }
      }
      return InviteAccepted;
    }

    /** `getSheetByName`, falling back to `insertSheet`: the named sheet,
        created empty when absent. */
    method OpenSheet(sheetName: string) returns (sheet: Sheet)
      requires Valid()
      modifies this`sheets
      ensures Valid()
      ensures sheet == if sheetName in old(sheets) then old(sheets)[sheetName] else []
      ensures sheets == old(sheets)[sheetName := sheet]
    {
      if sheetName in sheets {
        sheet := sheets[sheetName];
        StoreSame(sheets, sheetName);
      } else {
        sheet := [];
        Store(sheetName, sheet);
      }
    }

    /** Writing a whole sheet: the stored sheets stay compact. */
    method Store(sheetName: string, sheet: Sheet)
      requires Valid() && Compact(sheet)
      modifies this`sheets
      ensures Valid()
      ensures sheets == old(sheets)[sheetName := sheet]
    {
      StoreKeepsCompact(sheets, sheetName, sheet);
      sheets := sheets[sheetName := sheet];
    }

    /** The `append` mode: the sheet is created if absent, even when there
        is nothing to write; with labels and records the header goes into
        an empty sheet, the rows below the last row, and the row count
        below the header is recorded and reported. Without keys the rows
        cannot be written: the header stays, and the reply is an error. */
    method Append(sheetName: string, labels: Row, keys: seq<string>, records: seq<Record>, at: string)
      returns (reply: PostReply)
      requires Valid()
      modifies this`sheets, this`lastSync
      ensures Valid()
      ensures labels == [] || records == [] ==>
        && reply == AppendedNothing && lastSync == old(lastSync)
        && sheets == old(sheets)[sheetName := if sheetName in old(sheets) then old(sheets)[sheetName] else []]
      ensures labels != [] && records != [] ==>
        var after := AppendedSheet(if sheetName in old(sheets) then old(sheets)[sheetName] else [], labels, keys, records);
        && sheets == old(sheets)[sheetName := after]
        && (keys == [] ==> reply == Failed && lastSync == old(lastSync))
        && (keys != [] ==>
              && reply == Appended(|records|, TotalRows(after))
              && lastSync == old(lastSync)[sheetName := SyncMark("append", TotalRows(after), at)])
    {
      var before := OpenSheet(sheetName);
      if labels == [] || records == [] {
        return AppendedNothing;
      }
      ghost var created := sheets;
      ghost var after := AppendedSheet(before, labels, keys, records);
      reply := AppendBelow(sheetName, before, labels, keys, records, at);
      StoreTwice(old(sheets), sheetName, before, after);
      assert sheets == old(sheets)[sheetName := after];
    }

    /** The writing half of the `append` mode: the header into an empty
        sheet, then the rows below its last row. */
    method AppendBelow(sheetName: string, before: Sheet, labels: Row, keys: seq<string>, records: seq<Record>, at: string)
      returns (reply: PostReply)
      requires Valid() && Compact(before)
      modifies this`sheets, this`lastSync
      ensures Valid()
      ensures var after := AppendedSheet(before, labels, keys, records);
        && sheets == old(sheets)[sheetName := after]
        && (keys == [] ==> reply == Failed && lastSync == old(lastSync))
        && (keys != [] ==>
              && reply == Appended(|records|, TotalRows(after))
              && lastSync == old(lastSync)[sheetName := SyncMark("append", TotalRows(after), at)])
    {
      var withHeader := if before == [] then DataRegion([labels]) else before;
      if keys == [] {
        Store(sheetName, withHeader);
        return Failed;
      }
      var sheet := DataRegion(withHeader + AppendRows(records, keys));
      assert sheet == AppendedSheet(before, labels, keys, records);
      Store(sheetName, sheet);
      var totalRows := |sheet| - 1;
      lastSync := lastSync[sheetName := SyncMark("append", totalRows, at)];
      return Appended(|records|, totalRows);
    }

    /** The replace mode: the sheet is created or cleared first; with labels
        and records it then holds the header and one row per record, and
        the record count is recorded and reported. Without keys the rows
        cannot be written: the header stays, and the reply is an error. */
    method Replace(sheetName: string, labels: Row, keys: seq<string>, records: seq<Record>,
                   percent: string -> Option<string>, at: string) returns (reply: PostReply)
      requires Valid()
      modifies this`sheets, this`lastSync
      ensures Valid()
      ensures sheets == old(sheets)[sheetName := ReplacedSheet(labels, keys, records, percent)]
      ensures labels == [] || records == [] ==> reply == Replaced(0) && lastSync == old(lastSync)
      ensures labels != [] && records != [] && keys == [] ==> reply == Failed && lastSync == old(lastSync)
      ensures labels != [] && records != [] && keys != [] ==>
        reply == Replaced(|records|) && lastSync == old(lastSync)[sheetName := SyncMark("replace", |records|, at)]
    {
      Store(sheetName, []);
      if labels == [] {
        return Replaced(0);
      }
      if records == [] {
        return Replaced(0);
      }
      if keys == [] {
        var header := DataRegion([labels]);
        Store(sheetName, header);
        StoreTwice(old(sheets), sheetName, [], header);
        return Failed;
      }
      var rows := ReplaceRows(records, keys, percent);
      var sheet := DataRegion([labels] + rows);
      assert sheet == ReplacedSheet(labels, keys, records, percent);
      Store(sheetName, sheet);
      StoreTwice(old(sheets), sheetName, [], sheet);
      lastSync := lastSync[sheetName := SyncMark("replace", |records|, at)];
      return Replaced(|records|);
    }

    /** `doPost`: `notify` changes nothing; `send_invite`, `accept_invite`
        and `append` go to their branches; every other action, the empty
        one included, is the replace mode. */
    method DoPost(p: Payload, at: string, percent: string -> Option<string>, mailDelivered: bool)
      returns (reply: PostReply)
      requires Valid()
      modifies this
      ensures Valid()
      ensures p.action == "notify" ==>
        reply == Notified && sheets == old(sheets) && lastSync == old(lastSync) && outbox == old(outbox)
      ensures p.action == "send_invite" ==>
        (reply == InviteSent || reply == Duplicate) && lastSync == old(lastSync)
      ensures p.action == "accept_invite" ==>
        && reply == InviteAccepted && lastSync == old(lastSync) && outbox == old(outbox)
        && sheets == if InvitationsSheet in old(sheets) && p.token.Some?
                     then old(sheets)[InvitationsSheet := AcceptedSheet(old(sheets)[InvitationsSheet], p.token.value, p.username)]
                     else old(sheets)
      ensures p.action == "append" ==> (reply.Appended? || reply.AppendedNothing? || reply.Failed?) && outbox == old(outbox)
      ensures IsReplaceAction(p.action) ==>
        && reply == (if p.labels == [] || p.records == [] then Replaced(0)
                     else if p.keys == [] then Failed
                     else Replaced(|p.records|))
        && sheets == old(sheets)[p.sheetName := ReplacedSheet(p.labels, p.keys, p.records, percent)]
        && outbox == old(outbox)
    {
      if p.action == "notify" {
        return Notified;
      }
      if p.action == "send_invite" {
        var token := if p.token.Some? then p.token.value else "";
        reply := SendInvite(p.email, token, p.role, p.appUrl, p.sentBy, at, mailDelivered);
        return;
      }
      if p.action == "accept_invite" {
        reply := AcceptInvite(p.token, p.username);
        return;
      }
      if p.action == "append" {
        reply := Append(p.sheetName, p.labels, p.keys, p.records, at);
        return;
      }
      reply := Replace(p.sheetName, p.labels, p.keys, p.records, percent, at);
    }

    /** `syncStatus`: whether the sheet exists, its rows below the header
        (never negative) and its last recorded sync. */
    method SyncStatusOf(sheetName: string) returns (st: SyncStatus)
      ensures st.sheetExists <==> sheetName in sheets
      ensures st.rowCount == if sheetName in sheets then StatusRowCount(sheets[sheetName]) else 0
      ensures st.lastSync == if sheetName in lastSync then Some(lastSync[sheetName]) else None
      ensures st.sheet == sheetName
    {
      var rowCount := 0;
      if sheetName in sheets {
        var sheet := sheets[sheetName];
        rowCount := if |sheet| - 1 > 0 then |sheet| - 1 else 0;
      }
      var mark := if sheetName in lastSync then Some(lastSync[sheetName]) else None;
      return SyncStatus(sheetName, sheetName in sheets, rowCount, mark);
    }

    /** `getInvite`: the first data row of the Invitations sheet whose token
        matches, or not found when there is none, no such sheet or no
        token parameter. */
    method GetInvite(token: Option<string>) returns (r: Option<Invite>)
      ensures r == if InvitationsSheet in sheets && token.Some?
                   then FoundInvite(sheets[InvitationsSheet], token.value) else None
    {
      if InvitationsSheet !in sheets || token.None? {
        return None;
      }
      var rows := sheets[InvitationsSheet];
      var found := FindToken(rows, token.value);
      if found.Some? {
        return Some(InviteOf(rows[found.value]));
      }
      return None;
    }

    /** `listInvites`: one entry per data row of the Invitations sheet, in
        sheet order; nothing when the sheet is absent or holds only the header. */
    method ListInvites() returns (invites: seq<InviteEntry>)
      ensures invites == if InvitationsSheet in sheets then InviteEntries(sheets[InvitationsSheet]) else []
    {
      invites := [];
      if InvitationsSheet in sheets && |sheets[InvitationsSheet]| > 1 {
        var allRows := sheets[InvitationsSheet];
        var k := 1;
        while k < |allRows|
          invariant 1 <= k <= |allRows|
          invariant |invites| == k - 1
          invariant forall i :: 0 <= i < k - 1 ==> invites[i] == EntryOf(allRows[i + 1])
        {
          invites := invites + [EntryOf(allRows[k])];
          k := k + 1;
        }
      }
    }

    /** `doGet`: dispatch on the `action` parameter; an absent one is the
        health check. */
    method DoGet(action: string, sheetName: string, token: Option<string>) returns (reply: GetReply)
      ensures action == "syncStatus" ==> reply.Status? && reply.status.sheet == sheetName
      ensures action == "getInvite" ==>
        reply == match (if InvitationsSheet in sheets && token.Some? then FoundInvite(sheets[InvitationsSheet], token.value) else None)
                 case Some(inv) => InviteFound(inv)
                 case None => InviteNotFound
      ensures action == "listInvites" ==>
        reply == InviteList(if InvitationsSheet in sheets then InviteEntries(sheets[InvitationsSheet]) else [])
      ensures action != "syncStatus" && action != "getInvite" && action != "listInvites" ==> reply == Health
    {
      if action == "syncStatus" {
        var st := SyncStatusOf(sheetName);
        return Status(st);
      }
      if action == "getInvite" {
        var found := GetInvite(token);
        match found
        case Some(inv) => return InviteFound(inv);
        case None => return InviteNotFound;
      }
      if action == "listInvites" {
        var invites := ListInvites();
        return InviteList(invites);
      }
      return Health;
    }
  }
}
