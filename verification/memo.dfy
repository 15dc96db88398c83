/** Modules/Essentials/Entities/Memo.php and the two tables hanging off a memo:
    its recipients, each of type to, cc or bcc (the enum of the recipients
    migration), and its attachments. */
module Memos {
  import opened Common

  datatype MemoStatus = Draft | Sent | Archived

  datatype RecipientType = To | Cc | Bcc

  /** One row of the memos table. */
  datatype MemoRow = MemoRow(id: int, businessId: int, senderId: int, subject: string, body: string, status: MemoStatus)

  /** One row of the memo recipients table; `readAt` is an instant. */
  datatype RecipientRow = RecipientRow(id: int, memoId: int, userId: int, recipientType: RecipientType,
                                       isRead: bool, readAt: Option<int>)

  /** One row of the memo attachments table (the storage path is not modelled). */
  datatype AttachmentRow = AttachmentRow(id: int, memoId: int, filename: string, mimeType: string, size: int)

  function OfMemo(memoId: int): RecipientRow -> bool
  {
    (r: RecipientRow) => r.memoId == memoId
  }

  function OfType(t: RecipientType): RecipientRow -> bool
  {
    (r: RecipientRow) => r.recipientType == t
  }

  /** `recipients()`: the recipient rows of the memo, in id order. */
  function Recipients(rows: seq<RecipientRow>, memoId: int): (r: seq<RecipientRow>)
    ensures forall x :: x in r <==> x in rows && x.memoId == memoId
  {
    FilterMembers(rows, OfMemo(memoId));
    Filter(rows, OfMemo(memoId))
  }

  /** `toRecipients()`, `ccRecipients()` and `bccRecipients()`. */
  function RecipientsOfType(rows: seq<RecipientRow>, memoId: int, t: RecipientType): (r: seq<RecipientRow>)
    ensures forall x :: x in r <==> x in rows && x.memoId == memoId && x.recipientType == t
  {
    FilterMembers(Recipients(rows, memoId), OfType(t));
    Filter(Recipients(rows, memoId), OfType(t))
  }

  /** The three typed relations partition the recipients: every recipient is in
      exactly one of them, and their sizes add up to the number of recipients. */
  lemma RecipientTypesPartition(rows: seq<RecipientRow>, memoId: int)
    ensures |RecipientsOfType(rows, memoId, To)| + |RecipientsOfType(rows, memoId, Cc)|
          + |RecipientsOfType(rows, memoId, Bcc)| == |Recipients(rows, memoId)|
    ensures forall x :: x in Recipients(rows, memoId) ==>
      x in RecipientsOfType(rows, memoId, x.recipientType)
      && forall t :: t != x.recipientType ==> x !in RecipientsOfType(rows, memoId, t)
  {
    var rs := Recipients(rows, memoId);
    var all := (x: RecipientRow) => true;
    var notTo := (x: RecipientRow) => x.recipientType != To;
    CountSplit(rs, all, OfType(To), OfType(To), notTo);
    CountSplit(rs, notTo, OfType(Cc), OfType(Cc), OfType(Bcc));
    FilterAll(rs, all);
  }


  /** The names of the recipients of one type, in order. */
  function NamesOfType(rs: seq<RecipientRow>, t: RecipientType, nameOf: int -> string): seq<string>
  {
    FilterMap(rs, NameIfType(t, nameOf))
  }

  function NameIfType(t: RecipientType, nameOf: int -> string): RecipientRow -> Option<string>
  {
    (r: RecipientRow) => if r.recipientType == t then Some(nameOf(r.userId)) else None
  }

  /** `getRecipientsListAttribute()` over the memo's recipients, given each
      user's full name: the names grouped by recipient type. */
  method RecipientsList(rs: seq<RecipientRow>, nameOf: int -> string) returns (recipients: map<RecipientType, seq<string>>)
    ensures forall t :: t in recipients <==> NamesOfType(rs, t, nameOf) != []
    ensures forall t :: t in recipients ==> recipients[t] == NamesOfType(rs, t, nameOf)
  {
    recipients := map[];
    assert rs[..0] == [];
    for i := 0 to |rs|
      invariant GroupedNames(recipients, rs[..i], nameOf)
    {
      var recipient := rs[i];
      var group := if recipient.recipientType in recipients then recipients[recipient.recipientType] else [];
      GroupedSnoc(recipients, rs[..i], recipient, nameOf, group);
      recipients := recipients[recipient.recipientType := group + [nameOf(recipient.userId)]];
      assert rs[..i + 1] == rs[..i] + [recipient];
      assert GroupedNames(recipients, rs[..i + 1], nameOf);
    }
    assert rs[..|rs|] == rs;
    assert GroupedNames(recipients, rs, nameOf);
  }

  /** `groups` holds, for each type with recipients in `rs`, their names in order. */
  predicate GroupedNames(groups: map<RecipientType, seq<string>>, rs: seq<RecipientRow>, nameOf: int -> string)
  {
    (forall t :: t in groups <==> NamesOfType(rs, t, nameOf) != [])
    && (forall t :: t in groups ==> groups[t] == NamesOfType(rs, t, nameOf))
  }

  /** Appending one recipient's name to its type's group keeps the groups right. */
  lemma GroupedSnoc(groups: map<RecipientType, seq<string>>, rs: seq<RecipientRow>, recipient: RecipientRow,
                    nameOf: int -> string, group: seq<string>)
    requires GroupedNames(groups, rs, nameOf)
    requires group == if recipient.recipientType in groups then groups[recipient.recipientType] else []
    ensures GroupedNames(groups[recipient.recipientType := group + [nameOf(recipient.userId)]], rs + [recipient], nameOf)
  {
    var u := recipient.recipientType;
    var after := groups[u := group + [nameOf(recipient.userId)]];
    forall t
      ensures (t in after <==> NamesOfType(rs + [recipient], t, nameOf) != [])
           && (t in after ==> after[t] == NamesOfType(rs + [recipient], t, nameOf))
    {
      FilterMapSnoc(rs, recipient, NameIfType(t, nameOf));
      if t != u {
        assert NamesOfType(rs + [recipient], t, nameOf) == NamesOfType(rs, t, nameOf) + [];
      }
    }
  }

  /** Each group lists the names of exactly the recipients of its type, in
      order, so the groups hold one entry per recipient. */
  lemma {:induction false} RecipientsListTotal(rs: seq<RecipientRow>, nameOf: int -> string)
    ensures |NamesOfType(rs, To, nameOf)| + |NamesOfType(rs, Cc, nameOf)| + |NamesOfType(rs, Bcc, nameOf)| == |rs|
    ensures forall t :: |NamesOfType(rs, t, nameOf)| == |Filter(rs, OfType(t))|
  {
    if rs != [] {
      var init := rs[..|rs| - 1];
      var last := rs[|rs| - 1];
      RecipientsListTotal(init, nameOf);
      assert rs == init + [last];
      forall t
        ensures |NamesOfType(rs, t, nameOf)| == |Filter(rs, OfType(t))|
      {
        FilterMapSnoc(init, last, NameIfType(t, nameOf));
        FilterSnoc(init, last, OfType(t));
      }
    }
  }

  /** `getHasAttachmentsAttribute()`. */
  predicate HasAttachments(attachments: seq<AttachmentRow>, memoId: int)
  {
    Count(attachments, (a: AttachmentRow) => a.memoId == memoId) > 0
  }

  /** A memo has attachments exactly when some attachment row belongs to it. */
  lemma HasAttachmentsIff(attachments: seq<AttachmentRow>, memoId: int)
    ensures HasAttachments(attachments, memoId) <==> exists i :: 0 <= i < |attachments| && attachments[i].memoId == memoId
  {
    var p := (a: AttachmentRow) => a.memoId == memoId;
    FilterMembers(attachments, p);
    if exists i :: 0 <= i < |attachments| && attachments[i].memoId == memoId {
      var i :| 0 <= i < |attachments| && attachments[i].memoId == memoId;
      assert attachments[i] in Filter(attachments, p);
    } else {
      CountNone(attachments, p);
    }
  }

  /** The recipient groups the memo modal shows a viewer: to and cc to
      everyone, bcc only to the sender; a group without recipients is not shown. */
  function ShownRecipients(memo: MemoRow, rows: seq<RecipientRow>, viewerId: int): seq<RecipientRow>
  {
    RecipientsOfType(rows, memo.id, To) + RecipientsOfType(rows, memo.id, Cc)
    + (if viewerId == memo.senderId then RecipientsOfType(rows, memo.id, Bcc) else [])
  }

  /** Nobody but the sender sees a bcc recipient, and the sender sees every
      recipient of the memo. */
  lemma BccOnlyForSender(memo: MemoRow, rows: seq<RecipientRow>, viewerId: int)
    ensures viewerId != memo.senderId ==> forall x :: x in ShownRecipients(memo, rows, viewerId) ==> x.recipientType != Bcc
    ensures viewerId == memo.senderId ==>
      (forall x :: x in ShownRecipients(memo, rows, viewerId) <==> x in Recipients(rows, memo.id))
      && |ShownRecipients(memo, rows, viewerId)| == |Recipients(rows, memo.id)|
    ensures forall x :: x in Recipients(rows, memo.id) && x.recipientType != Bcc ==> x in ShownRecipients(memo, rows, viewerId)
  {
    RecipientTypesPartition(rows, memo.id);
  }
}
