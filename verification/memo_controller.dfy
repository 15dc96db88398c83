/** Modules/Essentials/Http/Controllers/MemoController.php: who may see, edit
    and delete a memo, how a memo and its recipient and attachment rows are
    written, and how viewing marks a memo read. The three tables live in the
    class `MemoDb`; each action is a method proved against functions on the
    tables, and the lemmas state what those functions guarantee. */
module MemoControl {
  import opened Common
  import opened Text
  import opened Tables
  import opened Memos

  /** The memos, memo recipients and memo attachments tables. */
  class MemoDb {
    var memos: Table<MemoRow>
    var recipients: Table<RecipientRow>
    var attachments: Table<AttachmentRow>

    /** What the database keeps true: memo ids are unique and below the next
        id, and every recipient row points at an id already handed out. */
    predicate Valid()
      reads this
    {
      TablesValid(memos, recipients)
    }

    constructor ()
      ensures Valid()
      ensures memos.rows == [] && recipients.rows == [] && attachments.rows == []
    {
      memos := Table([], 1);
      recipients := Table([], 1);
      attachments := Table([], 1);
    }
  }

  function MemoId(m: MemoRow): int { m.id }

  predicate TablesValid(memos: Table<MemoRow>, recipients: Table<RecipientRow>)
  {
    UniqueKeys(memos.rows, MemoId)
    && (forall i :: 0 <= i < |memos.rows| ==> memos.rows[i].id < memos.nextId)
    && (forall i :: 0 <= i < |recipients.rows| ==> recipients.rows[i].memoId < memos.nextId)
  }

  /** The first memo satisfying `p` (`where(...)->findOrFail($id)`). */
  function Find(rows: seq<MemoRow>, p: MemoRow -> bool): (r: Option<MemoRow>)
    ensures r.Some? ==> r.value in rows && p(r.value)
    ensures r.None? <==> forall i :: 0 <= i < |rows| ==> !p(rows[i])
  {
    match FirstIndex(rows, p)
    case None => None
    case Some(i) => Some(rows[i])
  }

  // ---------------------------------------------------------------- access

  /** The user holds a recipient row of the memo, of any type. */
  predicate IsRecipient(rows: seq<RecipientRow>, memoId: int, userId: int)
  {
    exists x :: x in Recipients(rows, memoId) && x.userId == userId
  }

  /** `checkMemoAccess`: the sender, or anyone with a recipient row. */
  predicate CheckMemoAccess(memo: MemoRow, rows: seq<RecipientRow>, userId: int)
  {
    memo.senderId == userId || IsRecipient(rows, memo.id, userId)
  }

  /** The query of the memo index: memos of the business that the user sent,
      or that have a recipient row of the user. */
  function ListedMemos(memos: seq<MemoRow>, rows: seq<RecipientRow>, businessId: int, userId: int): seq<MemoRow>
  {
    Filter(memos, Listed(rows, businessId, userId))
  }

  function Listed(rows: seq<RecipientRow>, businessId: int, userId: int): MemoRow -> bool
  {
    (m: MemoRow) => m.businessId == businessId
      && (m.senderId == userId || exists j :: 0 <= j < |rows| && rows[j].memoId == m.id && rows[j].userId == userId)
  }

  /** The index lists exactly the memos of the business that `checkMemoAccess`
      lets the user open. */
  lemma ListingMatchesAccess(memos: seq<MemoRow>, rows: seq<RecipientRow>, businessId: int, userId: int)
    ensures forall m :: (m in ListedMemos(memos, rows, businessId, userId)
                         <==> m in memos && m.businessId == businessId && CheckMemoAccess(m, rows, userId))
  {
    FilterMembers(memos, Listed(rows, businessId, userId));
    forall m | m in memos
      ensures Listed(rows, businessId, userId)(m) <==> m.businessId == businessId && CheckMemoAccess(m, rows, userId)
    {
      if exists j :: 0 <= j < |rows| && rows[j].memoId == m.id && rows[j].userId == userId {
        var j :| 0 <= j < |rows| && rows[j].memoId == m.id && rows[j].userId == userId;
        assert rows[j] in Recipients(rows, m.id);
      }
    }
  }

  // ------------------------------------------------------------ recipients

  /** The ids of one recipient list, each tagged with its type. */
  function Tagged(userIds: seq<int>, t: RecipientType): (r: seq<(int, RecipientType)>)
    ensures |r| == |userIds|
    ensures forall k :: 0 <= k < |r| ==> r[k] == (userIds[k], t)
  {
    seq(|userIds|, k requires 0 <= k < |userIds| => (userIds[k], t))
  }

  /** The rows `saveRecipients` builds: to, then cc, then bcc, each in input order. */
  function RecipientData(to: seq<int>, cc: seq<int>, bcc: seq<int>): seq<(int, RecipientType)>
  {
    Tagged(to, To) + Tagged(cc, Cc) + Tagged(bcc, Bcc)
  }

  /** The inserted rows: consecutive ids, unread. */
  function NewRecipientRows(firstId: int, memoId: int, data: seq<(int, RecipientType)>): (r: seq<RecipientRow>)
    ensures |r| == |data|
    ensures forall k :: 0 <= k < |r| ==> r[k] == RecipientRow(firstId + k, memoId, data[k].0, data[k].1, false, None)
  {
    seq(|data|, k requires 0 <= k < |data| => RecipientRow(firstId + k, memoId, data[k].0, data[k].1, false, None))
  }

  /** One bulk `insert` of recipient rows. */
  function InsertRecipients(t: Table<RecipientRow>, memoId: int, data: seq<(int, RecipientType)>): Table<RecipientRow>
  {
    Table(t.rows + NewRecipientRows(t.nextId, memoId, data), t.nextId + |data|)
  }

  /** `saveRecipients`: collect the three lists, then insert them in one go
      when there is anything to insert. */
  method SaveRecipients(db: MemoDb, memoId: int, to: seq<int>, cc: seq<int>, bcc: seq<int>)
    modifies db
    ensures db.recipients == InsertRecipients(old(db.recipients), memoId, RecipientData(to, cc, bcc))
    ensures db.memos == old(db.memos) && db.attachments == old(db.attachments)
  {
    var recipientsData: seq<(int, RecipientType)> := [];
    for i := 0 to |to|
      invariant recipientsData == Tagged(to[..i], To)
    {
      recipientsData := recipientsData + [(to[i], To)];
    }
    assert to[..|to|] == to;
    for i := 0 to |cc|
      invariant recipientsData == Tagged(to, To) + Tagged(cc[..i], Cc)
    {
      recipientsData := recipientsData + [(cc[i], Cc)];
    }
    assert cc[..|cc|] == cc;
    for i := 0 to |bcc|
      invariant recipientsData == Tagged(to, To) + Tagged(cc, Cc) + Tagged(bcc[..i], Bcc)
    {
      recipientsData := recipientsData + [(bcc[i], Bcc)];
    }
    assert bcc[..|bcc|] == bcc;
    if recipientsData != [] {
      db.recipients := InsertRecipients(db.recipients, memoId, recipientsData);
    } else {
      assert db.recipients.rows + [] == db.recipients.rows;
    }
  }

  /** The ids of the users a sequence of recipient rows names, in order. */
  function UserIds(rs: seq<RecipientRow>): (r: seq<int>)
    ensures |r| == |rs| && forall k :: 0 <= k < |rs| ==> r[k] == rs[k].userId
  {
    seq(|rs|, k requires 0 <= k < |rs| => rs[k].userId)
  }

  lemma NewRecipientRowsSplit(firstId: int, memoId: int, a: seq<(int, RecipientType)>, b: seq<(int, RecipientType)>)
    ensures NewRecipientRows(firstId, memoId, a + b)
         == NewRecipientRows(firstId, memoId, a) + NewRecipientRows(firstId + |a|, memoId, b)
  {
  }

  /** The rows inserted for one tagged list all carry its type and name its users. */
  lemma TaggedBlock(firstId: int, memoId: int, ids: seq<int>, t: RecipientType)
    ensures var block := NewRecipientRows(firstId, memoId, Tagged(ids, t));
      (forall k :: 0 <= k < |block| ==> block[k].recipientType == t) && UserIds(block) == ids
  {
  }

  /** Three blocks of rows typed to, cc and bcc: filtering by a type keeps its block. */
  lemma TypedBlocks(n1: seq<RecipientRow>, n2: seq<RecipientRow>, n3: seq<RecipientRow>, u: RecipientType)
    requires forall k :: 0 <= k < |n1| ==> n1[k].recipientType == To
    requires forall k :: 0 <= k < |n2| ==> n2[k].recipientType == Cc
    requires forall k :: 0 <= k < |n3| ==> n3[k].recipientType == Bcc
    ensures Filter(n1 + n2 + n3, OfType(u)) == match u case To => n1 case Cc => n2 case Bcc => n3
  {
    ThreeFiltered(n1, n2, n3, OfType(u));
    match u
    case To =>
      FilterAll(n1, OfType(u));
      FilterNone(n2, OfType(u));
      FilterNone(n3, OfType(u));
      assert n1 + [] + [] == n1;
    case Cc =>
      FilterNone(n1, OfType(u));
      FilterAll(n2, OfType(u));
      FilterNone(n3, OfType(u));
      assert [] + n2 + [] == n2;
    case Bcc =>
      FilterNone(n1, OfType(u));
      FilterNone(n2, OfType(u));
      FilterAll(n3, OfType(u));
      assert [] + [] + n3 == n3;
  }

  /** Inserting the recipients of a memo that had none: the to, cc and bcc
      relations read back exactly the three input lists in input order,
      duplicates included; there is one row per entry; every new row is
      unread; and no other memo's recipients change. */
  lemma RecipientsSaved(t: Table<RecipientRow>, memoId: int, to: seq<int>, cc: seq<int>, bcc: seq<int>)
    requires Recipients(t.rows, memoId) == []
    ensures var after := InsertRecipients(t, memoId, RecipientData(to, cc, bcc)).rows;
      UserIds(RecipientsOfType(after, memoId, To)) == to
      && UserIds(RecipientsOfType(after, memoId, Cc)) == cc
      && UserIds(RecipientsOfType(after, memoId, Bcc)) == bcc
      && |Recipients(after, memoId)| == |to| + |cc| + |bcc|
      && (forall x :: x in Recipients(after, memoId) ==> !x.isRead && x.readAt.None?)
      && (forall m :: m != memoId ==> Recipients(after, m) == Recipients(t.rows, m))
  {
    SavedRows(t, memoId, RecipientData(to, cc, bcc));
    SavedType(t, memoId, to, cc, bcc, To);
    SavedType(t, memoId, to, cc, bcc, Cc);
    SavedType(t, memoId, to, cc, bcc, Bcc);
    SavedOthers(t, memoId, RecipientData(to, cc, bcc));
  }

  /** The memo's recipient rows after the insert are exactly the inserted rows. */
  lemma SavedRows(t: Table<RecipientRow>, memoId: int, data: seq<(int, RecipientType)>)
    requires Recipients(t.rows, memoId) == []
    ensures Recipients(InsertRecipients(t, memoId, data).rows, memoId) == NewRecipientRows(t.nextId, memoId, data)
  {
    var n := NewRecipientRows(t.nextId, memoId, data);
    FilterAppend(t.rows, n, OfMemo(memoId));
    FilterAll(n, OfMemo(memoId));
  }

  /** After the insert, one typed relation names exactly that type's input list. */
  lemma SavedType(t: Table<RecipientRow>, memoId: int, to: seq<int>, cc: seq<int>, bcc: seq<int>, u: RecipientType)
    requires Recipients(t.rows, memoId) == []
    ensures UserIds(RecipientsOfType(InsertRecipients(t, memoId, RecipientData(to, cc, bcc)).rows, memoId, u))
         == match u case To => to case Cc => cc case Bcc => bcc
  {
    SavedRows(t, memoId, RecipientData(to, cc, bcc));
    TypedNewRows(t.nextId, memoId, to, cc, bcc, u);
  }

  /** The insert leaves every other memo's recipients as they were. */
  lemma SavedOthers(t: Table<RecipientRow>, memoId: int, data: seq<(int, RecipientType)>)
    ensures forall m :: m != memoId ==> Recipients(InsertRecipients(t, memoId, data).rows, m) == Recipients(t.rows, m)
  {
    var n := NewRecipientRows(t.nextId, memoId, data);
    forall m | m != memoId
      ensures Recipients(t.rows + n, m) == Recipients(t.rows, m)
    {
      FilterAppend(t.rows, n, OfMemo(m));
      FilterNone(n, OfMemo(m));
      assert Filter(t.rows, OfMemo(m)) + [] == Filter(t.rows, OfMemo(m));
    }
  }

  /** The inserted rows of one type name exactly that type's input list. */
  lemma TypedNewRows(firstId: int, memoId: int, to: seq<int>, cc: seq<int>, bcc: seq<int>, u: RecipientType)
    ensures UserIds(Filter(NewRecipientRows(firstId, memoId, RecipientData(to, cc, bcc)), OfType(u)))
         == match u case To => to case Cc => cc case Bcc => bcc
  {
    var n1 := NewRecipientRows(firstId, memoId, Tagged(to, To));
    var n2 := NewRecipientRows(firstId + |to|, memoId, Tagged(cc, Cc));
    var n3 := NewRecipientRows(firstId + |to| + |cc|, memoId, Tagged(bcc, Bcc));
    DataBlocks(firstId, memoId, to, cc, bcc);
    TaggedBlock(firstId, memoId, to, To);
    TaggedBlock(firstId + |to|, memoId, cc, Cc);
    TaggedBlock(firstId + |to| + |cc|, memoId, bcc, Bcc);
    TypedBlocks(n1, n2, n3, u);
  }

  /** The inserted rows are the to block, then the cc block, then the bcc block. */
  lemma DataBlocks(firstId: int, memoId: int, to: seq<int>, cc: seq<int>, bcc: seq<int>)
    ensures NewRecipientRows(firstId, memoId, RecipientData(to, cc, bcc))
         == NewRecipientRows(firstId, memoId, Tagged(to, To))
          + NewRecipientRows(firstId + |to|, memoId, Tagged(cc, Cc))
          + NewRecipientRows(firstId + |to| + |cc|, memoId, Tagged(bcc, Bcc))
  {
    NewRecipientRowsSplit(firstId, memoId, Tagged(to, To) + Tagged(cc, Cc), Tagged(bcc, Bcc));
    NewRecipientRowsSplit(firstId, memoId, Tagged(to, To), Tagged(cc, Cc));
  }

  lemma ThreeFiltered<T>(a: seq<T>, b: seq<T>, c: seq<T>, p: T -> bool)
    ensures Filter(a + b + c, p) == Filter(a, p) + Filter(b, p) + Filter(c, p)
  {
    FilterAppend(a + b, c, p);
    FilterAppend(a, b, p);
  }

  /** After the recipients of a memo without any are saved, a user may open
      the memo exactly when they sent it or appear in one of the three lists. */
  lemma AccessAfterSave(memo: MemoRow, t: Table<RecipientRow>, to: seq<int>, cc: seq<int>, bcc: seq<int>, userId: int)
    requires Recipients(t.rows, memo.id) == []
    ensures CheckMemoAccess(memo, InsertRecipients(t, memo.id, RecipientData(to, cc, bcc)).rows, userId)
        <==> memo.senderId == userId || userId in to || userId in cc || userId in bcc
  {
    var after := InsertRecipients(t, memo.id, RecipientData(to, cc, bcc)).rows;
    RecipientsSaved(t, memo.id, to, cc, bcc);
    RecipientTypesPartition(after, memo.id);
    if IsRecipient(after, memo.id, userId) {
      var x :| x in Recipients(after, memo.id) && x.userId == userId;
      var group := RecipientsOfType(after, memo.id, x.recipientType);
      var k :| 0 <= k < |group| && group[k] == x;
      assert UserIds(group)[k] == userId;
    }
    if userId in to {
      InGroup(after, memo.id, To, to, userId);
    } else if userId in cc {
      InGroup(after, memo.id, Cc, cc, userId);
    } else if userId in bcc {
      InGroup(after, memo.id, Bcc, bcc, userId);
    }
  }

  lemma InGroup(rows: seq<RecipientRow>, memoId: int, t: RecipientType, ids: seq<int>, userId: int)
    requires UserIds(RecipientsOfType(rows, memoId, t)) == ids && userId in ids
    ensures IsRecipient(rows, memoId, userId)
  {
    var group := RecipientsOfType(rows, memoId, t);
    var k :| 0 <= k < |ids| && ids[k] == userId;
    assert group[k] in group;
  }

  // ----------------------------------------------------------- attachments

  /** An uploaded file, as the request hands it over. */
  datatype UploadedFile = UploadedFile(isValid: bool, originalName: string, extension: string, mimeType: string, size: int)

  const AllowedTypes: seq<string> := ["pdf", "doc", "docx", "xls", "xlsx", "ppt", "pptx", "jpg", "jpeg", "png", "gif", "txt"]

  /** 50 MiB. */
  const MaxAttachmentSize: int := 50 * 1024 * 1024

  /** A file `saveAttachments` stores: a valid upload whose extension, in
      lower case, is allowed and whose size is at most 50 MiB. */
  predicate Admitted(f: UploadedFile)
  {
    f.isValid && Lower(f.extension) in AllowedTypes && f.size <= MaxAttachmentSize
  }

  function AttachmentOf(id: int, memoId: int, f: UploadedFile): AttachmentRow
  {
    AttachmentRow(id, memoId, f.originalName, f.mimeType, f.size)
  }

  /** The rows `MemoAttachment::create` adds for the files, one per file, in order. */
  function NewAttachmentRows(firstId: int, memoId: int, files: seq<UploadedFile>): (r: seq<AttachmentRow>)
    ensures |r| == |files|
    ensures forall k :: 0 <= k < |r| ==> r[k] == AttachmentOf(firstId + k, memoId, files[k])
  {
    seq(|files|, k requires 0 <= k < |files| => AttachmentOf(firstId + k, memoId, files[k]))
  }

  function InsertAttachments(t: Table<AttachmentRow>, memoId: int, files: seq<UploadedFile>): Table<AttachmentRow>
  {
    Table(t.rows + NewAttachmentRows(t.nextId, memoId, files), t.nextId + |files|)
  }

  lemma InsertAttachmentsSnoc(t: Table<AttachmentRow>, memoId: int, files: seq<UploadedFile>, f: UploadedFile)
    ensures var before := InsertAttachments(t, memoId, files);
      InsertAttachments(t, memoId, files + [f])
        == Table(before.rows + [AttachmentOf(before.nextId, memoId, f)], before.nextId + 1)
  {
    var before := InsertAttachments(t, memoId, files);
    assert NewAttachmentRows(t.nextId, memoId, files + [f])
        == NewAttachmentRows(t.nextId, memoId, files) + [AttachmentOf(before.nextId, memoId, f)];
  }

  /** `saveAttachments`: skip what is not admitted, store the rest. */
  method SaveAttachments(db: MemoDb, memoId: int, files: seq<UploadedFile>)
    modifies db
    ensures db.attachments == InsertAttachments(old(db.attachments), memoId, Filter(files, Admitted))
    ensures db.memos == old(db.memos) && db.recipients == old(db.recipients)
  {
    for i := 0 to |files|
      invariant db.attachments == InsertAttachments(old(db.attachments), memoId, Filter(files[..i], Admitted))
      invariant db.memos == old(db.memos) && db.recipients == old(db.recipients)
    {
      var file := files[i];
      assert files[..i + 1] == files[..i] + [file];
      FilterSnoc(files[..i], file, Admitted);
      assert Filter(files[..i], Admitted) + [] == Filter(files[..i], Admitted);
      if !file.isValid {
        continue;
      }
      var extension := Lower(file.extension);
      if extension !in AllowedTypes {
        continue;
      }
      if file.size > MaxAttachmentSize {
        continue;
      }
      assert Admitted(file);
      InsertAttachmentsSnoc(old(db.attachments), memoId, Filter(files[..i], Admitted), file);
      db.attachments := Table(db.attachments.rows + [AttachmentOf(db.attachments.nextId, memoId, file)], db.attachments.nextId + 1);
    }
    assert files[..|files|] == files;
  }

  /** The edges of admission: exactly 50 MiB passes, one byte more does not;
      the extension is compared in lower case; an invalid upload or an
      unlisted extension is skipped. */
  lemma AdmissionEdges(f: UploadedFile)
    requires f.isValid && f.extension == "PDF"
    ensures Admitted(f.(size := MaxAttachmentSize))
    ensures !Admitted(f.(size := MaxAttachmentSize + 1))
    ensures !Admitted(f.(isValid := false))
    ensures !Admitted(f.(extension := "exe"))
  {
    assert Lower("PDF") == "pdf";
    var exe := Lower("exe");
    assert exe == "exe";
  }

  /** The stored attachments are the admitted files, in order, one row each. */
  lemma AttachmentsSaved(t: Table<AttachmentRow>, memoId: int, files: seq<UploadedFile>)
    ensures var after := InsertAttachments(t, memoId, Filter(files, Admitted)).rows;
      |after| == |t.rows| + Count(files, Admitted)
      && forall k :: |t.rows| <= k < |after| ==>
           after[k].memoId == memoId && exists f :: f in files && Admitted(f) && after[k] == AttachmentOf(after[k].id, memoId, f)
  {
    var admitted := Filter(files, Admitted);
    var after := InsertAttachments(t, memoId, admitted).rows;
    FilterMembers(files, Admitted);
    forall k | |t.rows| <= k < |after|
      ensures after[k].memoId == memoId && exists f :: f in files && Admitted(f) && after[k] == AttachmentOf(after[k].id, memoId, f)
    {
      assert admitted[k - |t.rows|] in admitted;
    }
  }

  /** The memo has attachments after the upload iff it had some before or
      some file was admitted. */
  lemma AttachmentsPresence(t: Table<AttachmentRow>, memoId: int, files: seq<UploadedFile>)
    ensures HasAttachments(InsertAttachments(t, memoId, Filter(files, Admitted)).rows, memoId)
        <==> HasAttachments(t.rows, memoId) || exists f :: f in files && Admitted(f)
  {
    var admitted := Filter(files, Admitted);
    var after := InsertAttachments(t, memoId, admitted).rows;
    FilterMembers(files, Admitted);
    HasAttachmentsIff(after, memoId);
    HasAttachmentsIff(t.rows, memoId);
    if exists f :: f in files && Admitted(f) {
      var f :| f in files && Admitted(f);
      var k :| 0 <= k < |admitted| && admitted[k] == f;
      assert after[|t.rows| + k].memoId == memoId;
    }
    if HasAttachments(after, memoId) && !HasAttachments(t.rows, memoId) {
      var i :| 0 <= i < |after| && after[i].memoId == memoId;
      if i < |t.rows| {
        assert after[i] == t.rows[i];
      } else {
        assert admitted[i - |t.rows|] in admitted;
      }
    }
    if HasAttachments(t.rows, memoId) {
      var i :| 0 <= i < |t.rows| && t.rows[i].memoId == memoId;
      assert after[i] == t.rows[i];
    }
  }

  // ----------------------------------------------------------------- store

  /** The fields of a create or update request. */
  datatype MemoInput = MemoInput(subject: string, body: string, to: seq<int>, cc: seq<int>, bcc: seq<int>,
                                 send: bool, files: seq<UploadedFile>)

  /** Laravel's `required` on a string: not blank after trimming. */
  predicate Filled(s: string)
  {
    Trim(s) != ""
  }

  /** The rules `update` checks: subject and body filled, subject at most 255
      characters, at least one `to` recipient. */
  predicate ContentValid(input: MemoInput)
  {
    Filled(input.subject) && |input.subject| <= 255 && Filled(input.body) && |input.to| >= 1
  }

  predicate AllUsers(ids: seq<int>, userIds: set<int>)
  {
    forall k :: 0 <= k < |ids| ==> ids[k] in userIds
  }

  /** The rules `store` checks: those of `update`, and every recipient is an existing user. */
  predicate StoreValid(input: MemoInput, userIds: set<int>)
  {
    ContentValid(input) && AllUsers(input.to, userIds) && AllUsers(input.cc, userIds) && AllUsers(input.bcc, userIds)
  }

  /** The status a saved memo takes. */
  function NewStatus(send: bool): (s: MemoStatus)
    ensures s == Sent <==> send
    ensures s == Draft <==> !send
  {
    if send then Sent else Draft
  }

  /** The users `sendNotifications` notifies: every recipient of the memo,
      of any type, whose user has an e-mail address. */
  function Notified(rows: seq<RecipientRow>, memoId: int, hasEmail: int -> bool): seq<int>
  {
    UserIds(Filter(Recipients(rows, memoId), (x: RecipientRow) => hasEmail(x.userId)))
  }

  datatype StoreResult = StoreInvalid | Stored(memoId: int)

  /** `store`: validate, create the memo, save its recipients and attachments,
      and notify the recipients when it is sent. */
  method StoreMemo(db: MemoDb, businessId: int, senderId: int, input: MemoInput, userIds: set<int>, hasEmail: int -> bool)
      returns (result: StoreResult, notified: seq<int>)
    requires db.Valid()
    modifies db
    ensures db.Valid()
    ensures !StoreValid(input, userIds) ==> result == StoreInvalid && notified == [] && unchanged(db)
    ensures StoreValid(input, userIds) ==>
      var id := old(db.memos.nextId);
      result == Stored(id)
      && db.memos == Table(old(db.memos.rows) + [MemoRow(id, businessId, senderId, input.subject, input.body, NewStatus(input.send))], id + 1)
      && db.recipients == InsertRecipients(old(db.recipients), id, RecipientData(input.to, input.cc, input.bcc))
      && db.attachments == InsertAttachments(old(db.attachments), id, Filter(input.files, Admitted))
      && notified == (if input.send then Notified(db.recipients.rows, id, hasEmail) else [])
  {
    if !StoreValid(input, userIds) {
      return StoreInvalid, [];
    }
    var id := db.memos.nextId;
    var memo := MemoRow(id, businessId, senderId, input.subject, input.body, NewStatus(input.send));
    StoreKeepsValid(db.memos, db.recipients, memo, RecipientData(input.to, input.cc, input.bcc));
    db.memos := Table(db.memos.rows + [memo], id + 1);
    SaveRecipients(db, id, input.to, input.cc, input.bcc);
    SaveAttachments(db, id, input.files);
    notified := [];
    if input.send {
      notified := Notified(db.recipients.rows, id, hasEmail);
    }
    result := Stored(id);
  }

  /** Storing a memo under the next id, with its recipients, keeps the tables valid. */
  lemma StoreKeepsValid(memos: Table<MemoRow>, recipients: Table<RecipientRow>, memo: MemoRow, data: seq<(int, RecipientType)>)
    requires TablesValid(memos, recipients)
    requires memo.id == memos.nextId
    ensures TablesValid(Table(memos.rows + [memo], memo.id + 1), InsertRecipients(recipients, memo.id, data))
  {
    AppendMemoValid(memos.rows, memo);
    NewRecipientsValid(recipients, memo.id, data, memo.id + 1);
  }

  /** Appending a memo whose id is above every id in use keeps ids unique. */
  lemma AppendMemoValid(rows: seq<MemoRow>, memo: MemoRow)
    requires UniqueKeys(rows, MemoId)
    requires forall i :: 0 <= i < |rows| ==> rows[i].id < memo.id
    ensures UniqueKeys(rows + [memo], MemoId)
    ensures forall i :: 0 <= i < |rows + [memo]| ==> (rows + [memo])[i].id < memo.id + 1
  {
    var r := rows + [memo];
    forall i, j | 0 <= i < j < |r|
      ensures MemoId(r[i]) != MemoId(r[j])
    {
      assert r[i] == rows[i];
    }
  }

  lemma NewRecipientsValid(t: Table<RecipientRow>, memoId: int, data: seq<(int, RecipientType)>, bound: int)
    requires forall i :: 0 <= i < |t.rows| ==> t.rows[i].memoId < bound
    requires memoId < bound
    ensures var r := InsertRecipients(t, memoId, data).rows; forall i :: 0 <= i < |r| ==> r[i].memoId < bound
  {
    var r := InsertRecipients(t, memoId, data).rows;
    forall i | 0 <= i < |r|
      ensures r[i].memoId < bound
    {
      if i >= |t.rows| {
        assert r[i] == NewRecipientRows(t.nextId, memoId, data)[i - |t.rows|];
      }
    }
  }

  /** A freshly stored memo (its id is above every id in use) is sent exactly
      when the request said so; its to, cc and bcc relations read back the
      request's lists; the sender and exactly the listed users may open it;
      and the notified users are recipients with an e-mail address, none
      unless the memo is sent. */
  lemma StoredMemo(t: Table<RecipientRow>, memo: MemoRow, input: MemoInput, hasEmail: int -> bool, userId: int)
    requires forall i :: 0 <= i < |t.rows| ==> t.rows[i].memoId < memo.id
    requires memo.status == NewStatus(input.send)
    ensures var after := InsertRecipients(t, memo.id, RecipientData(input.to, input.cc, input.bcc)).rows;
      (memo.status == Sent <==> input.send)
      && UserIds(RecipientsOfType(after, memo.id, To)) == input.to
      && UserIds(RecipientsOfType(after, memo.id, Cc)) == input.cc
      && UserIds(RecipientsOfType(after, memo.id, Bcc)) == input.bcc
      && (CheckMemoAccess(memo, after, userId) <==> memo.senderId == userId || userId in input.to || userId in input.cc || userId in input.bcc)
      && (forall u :: u in Notified(after, memo.id, hasEmail) ==> hasEmail(u) && IsRecipient(after, memo.id, u))
  {
    FreshMemo(t.rows, memo.id);
    RecipientsSaved(t, memo.id, input.to, input.cc, input.bcc);
    AccessAfterSave(memo, t, input.to, input.cc, input.bcc, userId);
    NotifiedAreRecipients(InsertRecipients(t, memo.id, RecipientData(input.to, input.cc, input.bcc)).rows, memo.id, hasEmail);
  }

  lemma FreshMemo(rows: seq<RecipientRow>, memoId: int)
    requires forall i :: 0 <= i < |rows| ==> rows[i].memoId < memoId
    ensures Recipients(rows, memoId) == []
  {
    FilterNone(rows, OfMemo(memoId));
  }

  /** Everyone notified is a recipient of the memo with an e-mail address,
      and every such recipient is notified. */
  lemma NotifiedAreRecipients(rows: seq<RecipientRow>, memoId: int, hasEmail: int -> bool)
    ensures forall u :: u in Notified(rows, memoId, hasEmail) <==> hasEmail(u) && IsRecipient(rows, memoId, u)
  {
    var p := (x: RecipientRow) => hasEmail(x.userId);
    var rs := Recipients(rows, memoId);
    var withEmail := Filter(rs, p);
    FilterMembers(rs, p);
    forall u
      ensures u in Notified(rows, memoId, hasEmail) <==> hasEmail(u) && IsRecipient(rows, memoId, u)
    {
      if u in Notified(rows, memoId, hasEmail) {
        var k :| 0 <= k < |withEmail| && UserIds(withEmail)[k] == u;
        assert withEmail[k] in withEmail;
      }
      if hasEmail(u) && IsRecipient(rows, memoId, u) {
        var x :| x in rs && x.userId == u;
        assert x in withEmail;
        var k :| 0 <= k < |withEmail| && withEmail[k] == x;
        assert UserIds(withEmail)[k] == u;
      }
    }
  }

  // ------------------------------------------------------------ show (read)

  function ViewerRow(memoId: int, userId: int): RecipientRow -> bool
  {
    (r: RecipientRow) => r.memoId == memoId && r.userId == userId
  }

  /** The read marking of `show`: the viewer's first recipient row of the
      memo, if unread, becomes read at `now`. */
  function MarkRead(t: Table<RecipientRow>, memoId: int, userId: int, now: int): Table<RecipientRow>
  {
    match FirstIndex(t.rows, ViewerRow(memoId, userId))
    case None => t
    case Some(j) =>
      if t.rows[j].isRead then t
      else Table(t.rows[j := t.rows[j].(isRead := true, readAt := Some(now))], t.nextId)
  }

  /** Only the viewer's first row of the memo may change; afterwards it is
      read, and its read time is `now` unless it was read before. */
  lemma MarkReadEffect(t: Table<RecipientRow>, memoId: int, userId: int, now: int)
    ensures var after := MarkRead(t, memoId, userId, now);
      |after.rows| == |t.rows| && after.nextId == t.nextId
      && (FirstIndex(t.rows, ViewerRow(memoId, userId)).None? ==> after == t)
      && (FirstIndex(t.rows, ViewerRow(memoId, userId)).Some? ==>
           var j := FirstIndex(t.rows, ViewerRow(memoId, userId)).value;
           after.rows[j].isRead
           && after.rows[j].readAt == (if t.rows[j].isRead then t.rows[j].readAt else Some(now))
           && after.rows[j] == t.rows[j].(isRead := true, readAt := after.rows[j].readAt)
           && forall i :: 0 <= i < |t.rows| && i != j ==> after.rows[i] == t.rows[i])
  {
  }

  /** A second view, at any later time, changes nothing. */
  lemma MarkReadOnce(t: Table<RecipientRow>, memoId: int, userId: int, now: int, later: int)
    ensures MarkRead(MarkRead(t, memoId, userId, now), memoId, userId, later) == MarkRead(t, memoId, userId, now)
  {
    var p := ViewerRow(memoId, userId);
    var once := MarkRead(t, memoId, userId, now);
    match FirstIndex(t.rows, p)
    case None =>
    case Some(j) =>
      assert p(once.rows[j]);
      forall i | 0 <= i < j
        ensures !p(once.rows[i])
      {
        assert once.rows[i] == t.rows[i];
      }
      FirstIndexIs(once.rows, p, j);
  }

  lemma FirstIndexIs<T>(s: seq<T>, p: T -> bool, j: nat)
    requires j < |s| && p(s[j]) && forall i :: 0 <= i < j ==> !p(s[i])
    ensures FirstIndex(s, p) == Some(j)
  {
    var r := FirstIndex(s, p);
    assert r.Some?;
  }

  datatype ShowResult = ShowNotFound | ShowForbidden | Shown(memo: MemoRow)

  function InBusiness(memoId: int, businessId: int): MemoRow -> bool
  {
    (m: MemoRow) => m.id == memoId && m.businessId == businessId
  }

  /** `show`: find the memo in the business, refuse anyone without access,
      then mark it read for the viewer. */
  method ShowMemo(db: MemoDb, memoId: int, businessId: int, userId: int, now: int) returns (result: ShowResult)
    requires db.Valid()
    modifies db
    ensures db.Valid()
    ensures db.memos == old(db.memos) && db.attachments == old(db.attachments)
    ensures var found := Find(old(db.memos.rows), InBusiness(memoId, businessId));
      (found.None? ==> result == ShowNotFound && db.recipients == old(db.recipients))
      && (found.Some? && !CheckMemoAccess(found.value, old(db.recipients.rows), userId) ==>
           result == ShowForbidden && db.recipients == old(db.recipients))
      && (found.Some? && CheckMemoAccess(found.value, old(db.recipients.rows), userId) ==>
           result == Shown(found.value) && db.recipients == MarkRead(old(db.recipients), memoId, userId, now))
  {
    var found := Find(db.memos.rows, InBusiness(memoId, businessId));
    if found.None? {
      return ShowNotFound;
    }
    var memo := found.value;
    if !CheckMemoAccess(memo, db.recipients.rows, userId) {
      return ShowForbidden;
    }
    var j := FirstIndex(db.recipients.rows, ViewerRow(memoId, userId));
    if j.Some? && !db.recipients.rows[j.value].isRead {
      var recipient := db.recipients.rows[j.value].(isRead := true, readAt := Some(now));
      db.recipients := Table(db.recipients.rows[j.value := recipient], db.recipients.nextId);
    }
    result := Shown(memo);
  }

  // ------------------------------------------------------- edit and update

  function OwnDraft(memoId: int, businessId: int, userId: int): MemoRow -> bool
  {
    (m: MemoRow) => m.id == memoId && m.businessId == businessId && m.senderId == userId && m.status == Draft
  }

  /** The memo `edit` and `update` find: the caller's own draft in the business. */
  function EditableMemo(memos: seq<MemoRow>, memoId: int, businessId: int, userId: int): (r: Option<MemoRow>)
    ensures r.Some? ==> r.value in memos && r.value.id == memoId && r.value.businessId == businessId
                        && r.value.senderId == userId && r.value.status == Draft
    ensures r.None? <==> forall i :: 0 <= i < |memos| ==> !OwnDraft(memoId, businessId, userId)(memos[i])
  {
    Find(memos, OwnDraft(memoId, businessId, userId))
  }

  /** `$memo->update(...)`: the memo's subject, body and status. */
  function SetContent(t: Table<MemoRow>, memoId: int, input: MemoInput): (r: Table<MemoRow>)
    ensures |r.rows| == |t.rows| && r.nextId == t.nextId
    ensures forall i :: 0 <= i < |t.rows| ==>
      (r.rows[i] == if t.rows[i].id == memoId then t.rows[i].(subject := input.subject, body := input.body, status := NewStatus(input.send))
                    else t.rows[i])
  {
    Table(seq(|t.rows|, i requires 0 <= i < |t.rows| =>
      if t.rows[i].id == memoId then t.rows[i].(subject := input.subject, body := input.body, status := NewStatus(input.send))
      else t.rows[i]), t.nextId)
  }

  function NotOfMemo(memoId: int): RecipientRow -> bool
  {
    (r: RecipientRow) => r.memoId != memoId
  }

  /** `$memo->recipients()->delete()` followed by `saveRecipients`. */
  function ReplaceRecipients(t: Table<RecipientRow>, memoId: int, data: seq<(int, RecipientType)>): Table<RecipientRow>
  {
    InsertRecipients(Table(Filter(t.rows, NotOfMemo(memoId)), t.nextId), memoId, data)
  }

  datatype UpdateResult = UpdateNotFound | UpdateInvalid | Updated

  /** `update`: find the caller's own draft, validate, rewrite the memo,
      replace its recipients, add the new attachments, and notify when it is sent. */
  method UpdateMemo(db: MemoDb, memoId: int, businessId: int, userId: int, input: MemoInput, hasEmail: int -> bool)
      returns (result: UpdateResult, notified: seq<int>)
    requires db.Valid()
    modifies db
    ensures db.Valid()
    ensures EditableMemo(old(db.memos.rows), memoId, businessId, userId).None? ==>
      result == UpdateNotFound && notified == [] && unchanged(db)
    ensures EditableMemo(old(db.memos.rows), memoId, businessId, userId).Some? && !ContentValid(input) ==>
      result == UpdateInvalid && notified == [] && unchanged(db)
    ensures EditableMemo(old(db.memos.rows), memoId, businessId, userId).Some? && ContentValid(input) ==>
      result == Updated
      && db.memos == SetContent(old(db.memos), memoId, input)
      && db.recipients == ReplaceRecipients(old(db.recipients), memoId, RecipientData(input.to, input.cc, input.bcc))
      && db.attachments == InsertAttachments(old(db.attachments), memoId, Filter(input.files, Admitted))
      && notified == (if input.send then Notified(db.recipients.rows, memoId, hasEmail) else [])
  {
    var found := EditableMemo(db.memos.rows, memoId, businessId, userId);
    if found.None? {
      return UpdateNotFound, [];
    }
    if !ContentValid(input) {
      return UpdateInvalid, [];
    }
    UpdateKeepsValid(db.memos, db.recipients, found.value, input);
    RewriteMemo(db, memoId, input);
    notified := [];
    if input.send {
      notified := Notified(db.recipients.rows, memoId, hasEmail);
    }
    result := Updated;
  }

  /** The writes of `update`: the memo's content, its recipients replaced, its
      new attachments added. */
  method RewriteMemo(db: MemoDb, memoId: int, input: MemoInput)
    modifies db
    ensures db.memos == SetContent(old(db.memos), memoId, input)
    ensures db.recipients == ReplaceRecipients(old(db.recipients), memoId, RecipientData(input.to, input.cc, input.bcc))
    ensures db.attachments == InsertAttachments(old(db.attachments), memoId, Filter(input.files, Admitted))
  {
    db.memos := SetContent(db.memos, memoId, input);
    db.recipients := Table(Filter(db.recipients.rows, NotOfMemo(memoId)), db.recipients.nextId);
    SaveRecipients(db, memoId, input.to, input.cc, input.bcc);
    SaveAttachments(db, memoId, input.files);
  }

  /** Rewriting a memo that is in use and replacing its recipients keeps the tables valid. */
  lemma UpdateKeepsValid(memos: Table<MemoRow>, recipients: Table<RecipientRow>, row: MemoRow, input: MemoInput)
    requires TablesValid(memos, recipients)
    requires row in memos.rows
    ensures var memoId := row.id;
      TablesValid(SetContent(memos, memoId, input), ReplaceRecipients(recipients, memoId, RecipientData(input.to, input.cc, input.bcc)))
  {
    var memoId := row.id;
    SetContentValid(memos, memoId, input);
    FilterBound(recipients.rows, NotOfMemo(memoId), memos.nextId);
    NewRecipientsValid(Table(Filter(recipients.rows, NotOfMemo(memoId)), recipients.nextId), memoId,
                       RecipientData(input.to, input.cc, input.bcc), memos.nextId);
  }

  lemma SetContentValid(t: Table<MemoRow>, memoId: int, input: MemoInput)
    requires UniqueKeys(t.rows, MemoId)
    ensures UniqueKeys(SetContent(t, memoId, input).rows, MemoId)
    ensures forall i :: 0 <= i < |t.rows| ==> SetContent(t, memoId, input).rows[i].id == t.rows[i].id
  {
  }

  lemma FilterBound(rows: seq<RecipientRow>, p: RecipientRow -> bool, bound: int)
    requires forall i :: 0 <= i < |rows| ==> rows[i].memoId < bound
    ensures forall i :: 0 <= i < |Filter(rows, p)| ==> Filter(rows, p)[i].memoId < bound
  {
    FilterMembers(rows, p);
    forall i | 0 <= i < |Filter(rows, p)|
      ensures Filter(rows, p)[i].memoId < bound
    {
      var x := Filter(rows, p)[i];
      assert x in Filter(rows, p);
      var j :| 0 <= j < |rows| && rows[j] == x;
    }
  }

  /** An update only ever starts from a draft and leaves the memo a draft or
      sent, sent exactly when the request says so; a sent or archived memo is
      never found, so sent never goes back to draft. Other memos keep their rows. */
  lemma UpdateTransition(t: Table<MemoRow>, memoId: int, businessId: int, userId: int, input: MemoInput)
    requires UniqueKeys(t.rows, MemoId)
    ensures (forall i :: 0 <= i < |t.rows| && t.rows[i].id == memoId ==> t.rows[i].status != Draft)
      ==> EditableMemo(t.rows, memoId, businessId, userId).None?
    ensures EditableMemo(t.rows, memoId, businessId, userId).Some? ==>
      forall i :: 0 <= i < |t.rows| ==>
        (if t.rows[i].id == memoId then
          t.rows[i].status == Draft
          && SetContent(t, memoId, input).rows[i].status == (if input.send then Sent else Draft)
        else SetContent(t, memoId, input).rows[i] == t.rows[i])
  {
    var found := EditableMemo(t.rows, memoId, businessId, userId);
    if found.Some? {
      var k :| 0 <= k < |t.rows| && t.rows[k] == found.value;
      assert forall i :: 0 <= i < |t.rows| && t.rows[i].id == memoId ==> i == k;
    }
  }

  /** The recipient set is replaced wholesale: afterwards the memo's to, cc
      and bcc relations are exactly the request's lists, whatever they were
      before, and every other memo keeps its recipients. */
  lemma RecipientsReplaced(t: Table<RecipientRow>, memoId: int, to: seq<int>, cc: seq<int>, bcc: seq<int>)
    ensures var after := ReplaceRecipients(t, memoId, RecipientData(to, cc, bcc)).rows;
      UserIds(RecipientsOfType(after, memoId, To)) == to
      && UserIds(RecipientsOfType(after, memoId, Cc)) == cc
      && UserIds(RecipientsOfType(after, memoId, Bcc)) == bcc
      && |Recipients(after, memoId)| == |to| + |cc| + |bcc|
      && (forall m :: m != memoId ==> Recipients(after, m) == Recipients(t.rows, m))
  {
    var kept := Filter(t.rows, NotOfMemo(memoId));
    FilterMembers(t.rows, NotOfMemo(memoId));
    forall i | 0 <= i < |kept|
      ensures !OfMemo(memoId)(kept[i])
    {
      assert kept[i] in kept;
    }
    FilterNone(kept, OfMemo(memoId));
    RecipientsSaved(Table(kept, t.nextId), memoId, to, cc, bcc);
    forall m | m != memoId
      ensures Recipients(kept, m) == Recipients(t.rows, m)
    {
      FilterFilter(t.rows, NotOfMemo(memoId), OfMemo(m));
    }
  }

  /** Filtering by `q` first changes nothing when `p` implies `q`. */
  lemma {:induction false} FilterFilter<T>(s: seq<T>, q: T -> bool, p: T -> bool)
    requires forall x :: p(x) ==> q(x)
    ensures Filter(Filter(s, q), p) == Filter(s, p)
  {
    if s != [] {
      var init := s[..|s| - 1];
      var last := s[|s| - 1];
      assert s == init + [last];
      FilterFilter(init, q, p);
      FilterSnoc(init, last, q);
      FilterSnoc(init, last, p);
      if q(last) {
        FilterSnoc(Filter(init, q), last, p);
      } else {
        assert !p(last);
        assert Filter(init, q) + [] == Filter(init, q);
        assert Filter(init, p) + [] == Filter(init, p);
      }
    }
  }

  // ---------------------------------------------------------------- destroy

  function OwnMemo(memoId: int, businessId: int, userId: int): MemoRow -> bool
  {
    (m: MemoRow) => m.id == memoId && m.businessId == businessId && m.senderId == userId
  }

  /** The memo `destroy` finds: the caller's own memo in the business, in any status. */
  function DestroyTarget(memos: seq<MemoRow>, memoId: int, businessId: int, userId: int): (r: Option<MemoRow>)
    ensures r.Some? ==> r.value in memos && r.value.id == memoId && r.value.businessId == businessId && r.value.senderId == userId
    ensures r.None? <==> forall i :: 0 <= i < |memos| ==> !OwnMemo(memoId, businessId, userId)(memos[i])
  {
    Find(memos, OwnMemo(memoId, businessId, userId))
  }

  function NotMemo(memoId: int): MemoRow -> bool
  {
    (m: MemoRow) => m.id != memoId
  }

  function NotAttachedTo(memoId: int): AttachmentRow -> bool
  {
    (a: AttachmentRow) => a.memoId != memoId
  }

  datatype DestroyResult = DestroyNotFound | Destroyed

  /** `destroy`: find the caller's own memo and delete it; the foreign keys
      cascade the delete to its recipient and attachment rows. */
  method DestroyMemo(db: MemoDb, memoId: int, businessId: int, userId: int) returns (result: DestroyResult)
    requires db.Valid()
    modifies db
    ensures db.Valid()
    ensures DestroyTarget(old(db.memos.rows), memoId, businessId, userId).None? ==> result == DestroyNotFound && unchanged(db)
    ensures DestroyTarget(old(db.memos.rows), memoId, businessId, userId).Some? ==>
      result == Destroyed
      && db.memos == Table(Filter(old(db.memos.rows), NotMemo(memoId)), old(db.memos.nextId))
      && db.recipients == Table(Filter(old(db.recipients.rows), NotOfMemo(memoId)), old(db.recipients.nextId))
      && db.attachments == Table(Filter(old(db.attachments.rows), NotAttachedTo(memoId)), old(db.attachments.nextId))
  {
    var found := DestroyTarget(db.memos.rows, memoId, businessId, userId);
    if found.None? {
      return DestroyNotFound;
    }
    FilterKeepsUnique(db.memos.rows, MemoId, NotMemo(memoId));
    FilterMemoBound(db.memos.rows, NotMemo(memoId), db.memos.nextId);
    FilterBound(db.recipients.rows, NotOfMemo(memoId), db.memos.nextId);
    db.memos := Table(Filter(db.memos.rows, NotMemo(memoId)), db.memos.nextId);
    db.recipients := Table(Filter(db.recipients.rows, NotOfMemo(memoId)), db.recipients.nextId);
    db.attachments := Table(Filter(db.attachments.rows, NotAttachedTo(memoId)), db.attachments.nextId);
    result := Destroyed;
  }

  lemma FilterMemoBound(rows: seq<MemoRow>, p: MemoRow -> bool, bound: int)
    requires forall i :: 0 <= i < |rows| ==> rows[i].id < bound
    ensures forall i :: 0 <= i < |Filter(rows, p)| ==> Filter(rows, p)[i].id < bound
  {
    FilterMembers(rows, p);
    forall i | 0 <= i < |Filter(rows, p)|
      ensures Filter(rows, p)[i].id < bound
    {
      assert Filter(rows, p)[i] in Filter(rows, p);
    }
  }

  /** Only the sender can delete a memo; afterwards no memo, recipient row or
      attachment row with that id remains, and everything else is kept. */
  lemma DestroyEffect(memos: seq<MemoRow>, rows: seq<RecipientRow>, attachments: seq<AttachmentRow>,
                      memoId: int, businessId: int, userId: int)
    ensures DestroyTarget(memos, memoId, businessId, userId).Some? ==>
      exists i :: 0 <= i < |memos| && memos[i].id == memoId && memos[i].senderId == userId
    ensures forall m :: m in Filter(memos, NotMemo(memoId)) <==> m in memos && m.id != memoId
    ensures forall r :: r in Filter(rows, NotOfMemo(memoId)) <==> r in rows && r.memoId != memoId
    ensures forall a :: a in Filter(attachments, NotAttachedTo(memoId)) <==> a in attachments && a.memoId != memoId
    ensures !HasAttachments(Filter(attachments, NotAttachedTo(memoId)), memoId)
  {
    var target := DestroyTarget(memos, memoId, businessId, userId);
    if target.Some? {
      var i :| 0 <= i < |memos| && memos[i] == target.value;
    }
    FilterMembers(memos, NotMemo(memoId));
    FilterMembers(rows, NotOfMemo(memoId));
    var left := Filter(attachments, NotAttachedTo(memoId));
    FilterMembers(attachments, NotAttachedTo(memoId));
    HasAttachmentsIff(left, memoId);
    forall i | 0 <= i < |left|
      ensures left[i].memoId != memoId
    {
      assert left[i] in left;
    }
  }

  // -------------------------------------------------------- action buttons

  /** The buttons of one row of the memo index. */
  datatype Actions = Actions(view: bool, edit: bool, delete: bool)

  function ActionButtons(memo: MemoRow, userId: int): Actions
  {
    Actions(true, memo.senderId == userId && memo.status == Draft, memo.senderId == userId)
  }

  /** The buttons offer exactly what the actions allow: edit shows iff `edit`
      would find this memo, delete iff `destroy` would. */
  lemma ButtonsMatchGuards(memos: seq<MemoRow>, memo: MemoRow, userId: int)
    requires UniqueKeys(memos, MemoId) && memo in memos
    ensures ActionButtons(memo, userId).view
    ensures ActionButtons(memo, userId).edit <==> EditableMemo(memos, memo.id, memo.businessId, userId) == Some(memo)
    ensures ActionButtons(memo, userId).delete <==> DestroyTarget(memos, memo.id, memo.businessId, userId) == Some(memo)
  {
    var k :| 0 <= k < |memos| && memos[k] == memo;
    assert forall i :: 0 <= i < |memos| && memos[i].id == memo.id ==> i == k;
    if memo.senderId == userId && memo.status == Draft {
      assert OwnDraft(memo.id, memo.businessId, userId)(memos[k]);
    }
    if memo.senderId == userId {
      assert OwnMemo(memo.id, memo.businessId, userId)(memos[k]);
    }
  }
}
