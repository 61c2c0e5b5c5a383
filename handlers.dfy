/**
  The request handlers of server_app_main.py over an in-memory store of the
  tables. Each handler that writes first checks the caller (through module
  Auth, or the credentials for Login), then makes its own checks, and only
  then writes; a refused request changes nothing and leaves no audit row.
  ListAuditLogs writes nothing and is a function of the current state.

  The store hands out primary keys from one counter shared by all tables,
  and keeps an abstract clock that advances once per committed request:
  every row a request writes is stamped with the clock's value at the start
  of that request.
 */
module Handlers {
  import opened Outcomes
  import opened Text
  import opened Seqs
  import opened Models
  import opened Auth
  import opened Storage
  import opened PdfParser

  // ----- Response shapes -----

  /** `UserOut`: a user as answered to clients, without the password hash. */
  datatype UserOut = UserOut(id: int, username: string, role: string, isActive: bool)

  datatype LoginResponse = LoginResponse(token: string, user: UserOut)

  /** One hit of the external product search; fetching it is not part of this model. */
  datatype SearchResult = SearchResult(title: string, description: string, features: seq<string>, source: string, link: string)

  datatype SearchResponse = SearchResponse(query: string, results: seq<SearchResult>)

  function ToUserOut(u: User): UserOut {
    UserOut(u.id, u.username, u.role, u.isActive)
  }

  // ----- login -----

  /** The first user row named `username`, if any. */
  function FindUserByName(users: seq<User>, username: string): (r: Option<User>)
    ensures r.Some? ==> r.value in users && r.value.username == username
    ensures r.None? <==> username !in Usernames(users)
  {
    if users == [] then None
    else if users[0].username == username then Some(users[0])
    else FindUserByName(users[1..], username)
  }

  /**
    The checks `login` makes before it writes anything: an unknown name and
    a wrong password are refused alike with 401, and only the right password
    reveals that an account is inactive (403).
   */
  function CheckCredentials(users: seq<User>, username: string, password: string, verify: (string, string) -> bool)
    : (r: Result<User>)
    ensures username !in Usernames(users) ==> r == Err(Unauthorized("Invalid credentials"))
    ensures r.Err? ==> r.error == Unauthorized("Invalid credentials") || r.error == Forbidden("User inactive")
    ensures r == Err(Forbidden("User inactive")) ==>
      exists u :: u in users && u.username == username && verify(password, u.passwordHash) && !u.isActive
    ensures r.Ok? ==> r.value in users && r.value.username == username && r.value.isActive && verify(password, r.value.passwordHash)
  {
    match FindUserByName(users, username)
    case None => Err(Unauthorized("Invalid credentials"))
    case Some(u) =>
      if !verify(password, u.passwordHash) then Err(Unauthorized("Invalid credentials"))
      else if !u.isActive then Err(Forbidden("User inactive"))
      else Ok(u)
  }

  /**
    With unique usernames the outcome for an existing account is decided by
    the password first and the active flag second.
   */
  lemma {:induction false} CredentialsOfAccount(users: seq<User>, username: string, password: string,
                                                verify: (string, string) -> bool, u: User)
    requires UniqueUsernames(users) && u in users && u.username == username
    ensures !verify(password, u.passwordHash) ==> CheckCredentials(users, username, password, verify) == Err(Unauthorized("Invalid credentials"))
    ensures verify(password, u.passwordHash) && !u.isActive ==> CheckCredentials(users, username, password, verify) == Err(Forbidden("User inactive"))
    ensures verify(password, u.passwordHash) && u.isActive ==> CheckCredentials(users, username, password, verify) == Ok(u)
  {
    assert username in Usernames(users);
    var found := FindUserByName(users, username).value;
    var i :| 0 <= i < |users| && users[i] == u;
    var j :| 0 <= j < |users| && users[j] == found;
    assert i == j;
  }

  /**
    The token handed out by a successful login authenticates as the user who
    logged in, as long as it carries no surrounding whitespace (the tokens of
    `secrets.token_urlsafe` never do).
   */
  lemma LoginTokenAuthenticates(sessions: seq<SessionToken>, users: seq<User>, u: User, session: SessionToken)
    requires UniqueTokens(sessions) && UniqueUserIds(users)
    requires u in users && u.isActive && session.userId == u.id
    requires session.token !in Tokens(sessions) && IsStripped(session.token)
    ensures CurrentUser(Some(BearerPrefix + session.token), sessions + [session], users) == Ok(u)
  {
    var header := BearerPrefix + session.token;
    assert header[..|BearerPrefix|] == BearerPrefix;
    assert header[|BearerPrefix|..] == session.token;
    assert BearerToken(Some(header)) == Some(session.token);
    var all := sessions + [session];
    forall i, j | 0 <= i < j < |all| ensures all[i].token != all[j].token {
      if j == |sessions| { assert all[i] in sessions; }
    }
    AuthenticatesIff(Some(header), all, users, session, u);
  }

  // ----- logout -----

  /** The session rows that survive `logout` of the user `userId`. */
  function SessionsWithoutUser(sessions: seq<SessionToken>, userId: int): (r: seq<SessionToken>)
    ensures forall s :: s in r <==> s in sessions && s.userId != userId
  {
    Filter(sessions, (s: SessionToken) => s.userId != userId)
  }

  /** After `logout`, no header authenticates as the user who logged out, whatever token it presents. */
  lemma LoggedOutUserCannotAuthenticate(header: Option<string>, sessions: seq<SessionToken>, users: seq<User>, userId: int)
    ensures CurrentUser(header, SessionsWithoutUser(sessions, userId), users).Ok? ==>
      CurrentUser(header, SessionsWithoutUser(sessions, userId), users).value.id != userId
  {
  }

  // ----- The list endpoints -----

  /**
    `list_documents`: the documents of one manufacturer, newest first. The
    store keeps documents in upload order, so newest first is that order
    reversed.
   */
  function DocumentList(documents: seq<Document>, manufacturerId: int): (r: seq<Document>)
    ensures forall d :: d in r <==> d in documents && d.manufacturerId == manufacturerId
  {
    Reverse(Filter(documents, (d: Document) => d.manufacturerId == manufacturerId))
  }

  /** The list is ordered by `uploaded_at`, newest first. */
  lemma DocumentListNewestFirst(documents: seq<Document>, nextId: int, clock: nat, manufacturerId: int)
    requires DocumentsWellFormed(documents, nextId, clock)
    ensures forall i, j :: 0 <= i < j < |DocumentList(documents, manufacturerId)| ==>
      DocumentList(documents, manufacturerId)[i].uploadedAt > DocumentList(documents, manufacturerId)[j].uploadedAt
  {
    var mine := Filter(documents, (d: Document) => d.manufacturerId == manufacturerId);
    FilterKeepsOrder(documents, (d: Document) => d.manufacturerId == manufacturerId,
      (a: Document, b: Document) => a.uploadedAt < b.uploadedAt);
    var r := DocumentList(documents, manufacturerId);
    forall i, j | 0 <= i < j < |r| ensures r[i].uploadedAt > r[j].uploadedAt {
      assert r[i] == mine[|mine| - 1 - i] && r[j] == mine[|mine| - 1 - j];
    }
  }

  /** `list_sections`: the sections of one document, in the order they were stored. */
  function SectionList(sections: seq<Section>, documentId: int): (r: seq<Section>)
    ensures forall s :: s in r <==> s in sections && s.documentId == documentId
  {
    Filter(sections, (s: Section) => s.documentId == documentId)
  }

  /** That order is ascending `order_index`, as `order_by(Section.order_index)` asks. */
  lemma SectionListInOrder(sections: seq<Section>, documents: seq<Document>, nextId: int, documentId: int)
    requires SectionsWellFormed(sections, documents, nextId)
    ensures forall i, j :: 0 <= i < j < |SectionList(sections, documentId)| ==>
      SectionList(sections, documentId)[i].orderIndex < SectionList(sections, documentId)[j].orderIndex
  {
    FilterKeepsOrder(sections, (s: Section) => s.documentId == documentId,
      (a: Section, b: Section) => a.orderIndex < b.orderIndex);
  }

  /** `list_figures`: the figures of one section, in the order they were stored. */
  function FigureList(figures: seq<Figure>, sectionId: int): (r: seq<Figure>)
    ensures forall f :: f in r <==> f in figures && f.sectionId == Some(sectionId)
  {
    Filter(figures, (f: Figure) => f.sectionId == Some(sectionId))
  }

  /**
    That order is ascending `order_index`: the figures of one section belong
    to one document, whose figures are stored in that order.
   */
  lemma FigureListInOrder(figures: seq<Figure>, sections: seq<Section>, documents: seq<Document>, nextId: int, sectionId: int)
    requires SectionsWellFormed(sections, documents, nextId)
    requires FiguresWellFormed(figures, sections, documents, nextId)
    ensures forall i, j :: 0 <= i < j < |FigureList(figures, sectionId)| ==>
      FigureList(figures, sectionId)[i].orderIndex < FigureList(figures, sectionId)[j].orderIndex
  {
    FiguresOfSectionShareDocument(figures, sections, documents, nextId, sectionId);
    forall i, j | 0 <= i < j < |figures| && figures[i].sectionId == Some(sectionId) && figures[j].sectionId == Some(sectionId)
      ensures figures[i].orderIndex < figures[j].orderIndex
    {
      assert figures[i] in figures && figures[j] in figures;
    }
    FilterKeepsOrder(figures, (f: Figure) => f.sectionId == Some(sectionId),
      (a: Figure, b: Figure) => a.orderIndex < b.orderIndex);
  }

  /** `list_audit_logs`: the newest 200 audit rows, newest first. */
  function AuditPage(logs: seq<AuditLog>): (r: seq<AuditLog>)
    ensures |r| == Min(200, |logs|)
    ensures forall i :: 0 <= i < |r| ==> r[i] == logs[|logs| - 1 - i]
  {
    Reverse(logs)[..Min(200, |logs|)]
  }

  /** On a chronological log the page is ordered by `created_at`, newest first, and older rows are left off. */
  lemma AuditPageNewestFirst(logs: seq<AuditLog>, clock: nat)
    requires Chronological(logs, clock)
    ensures forall i, j :: 0 <= i < j < |AuditPage(logs)| ==> AuditPage(logs)[i].createdAt > AuditPage(logs)[j].createdAt
    ensures forall i, k :: 0 <= i < |AuditPage(logs)| && 0 <= k < |logs| - |AuditPage(logs)| ==>
      logs[k].createdAt < AuditPage(logs)[i].createdAt
  {
    var r := AuditPage(logs);
    forall i, k | 0 <= i < |r| && 0 <= k < |logs| - |r| ensures logs[k].createdAt < r[i].createdAt {
      assert r[i] == logs[|logs| - 1 - i];
    }
  }

  // ----- update_document -----

  /** `if value:` in Python: the form field was sent and is not empty. */
  predicate Supplied(value: Option<string>) {
    value.Some? && value.value != ""
  }

  /** The position of the first document with primary key `id`, if any. */
  function FindDocument(documents: seq<Document>, id: int): (r: Option<nat>)
    ensures r.Some? ==> r.value < |documents| && documents[r.value].id == id
    ensures r.None? <==> id !in DocumentIds(documents)
  {
    if documents == [] then None
    else if documents[0].id == id then Some(0)
    else match FindDocument(documents[1..], id)
      case None => None
      case Some(i) => Some(i + 1)
  }

  /**
    The document after `update_document`: each of title, revision date and
    tags takes the value sent when it was sent non-empty and keeps its old
    value otherwise; no other column changes.
   */
  function Revise(d: Document, title: Option<string>, revisionDate: Option<string>, tags: Option<string>): (r: Document)
    ensures r.(title := d.title, revisionDate := d.revisionDate, tags := d.tags) == d
    ensures Supplied(title) ==> r.title == title.value
    ensures !Supplied(title) ==> r.title == d.title
    ensures Supplied(revisionDate) ==> r.revisionDate == revisionDate
    ensures !Supplied(revisionDate) ==> r.revisionDate == d.revisionDate
    ensures Supplied(tags) ==> r.tags == tags
    ensures !Supplied(tags) ==> r.tags == d.tags
  {
    var d1 := if Supplied(title) then d.(title := title.value) else d;
    var d2 := if Supplied(revisionDate) then d1.(revisionDate := revisionDate) else d1;
    if Supplied(tags) then d2.(tags := tags) else d2
  }

  // ----- upload_document -----

  /** `file.filename.lower().endswith(".pdf")`. */
  predicate IsPdfFilename(filename: string) {
    EndsWith(LowerString(filename), ".pdf")
  }

  /** The name passes exactly when its last four characters are a dot and `pdf` in any case. */
  lemma IsPdfFilenameIff(filename: string)
    ensures IsPdfFilename(filename) <==>
      && |filename| >= 4 && filename[|filename| - 4] == '.'
      && Lower(filename[|filename| - 3]) == 'p' && Lower(filename[|filename| - 2]) == 'd' && Lower(filename[|filename| - 1]) == 'f'
  {
    var l := LowerString(filename);
    var n := |l|;
    if n >= 4 {
      assert l[n - 4..] == [l[n - 4], l[n - 3], l[n - 2], l[n - 1]];
    }
  }

  /** The check ignores case: `REPORT.PDF` is accepted. */
  lemma UpperCasePdfAccepted()
    ensures IsPdfFilename("REPORT.PDF")
  {
    IsPdfFilenameIff("REPORT.PDF");
  }

  /** Only the end of the name counts: `report.pdf.txt` is refused. */
  lemma InnerPdfRefused()
    ensures !IsPdfFilename("report.pdf.txt")
  {
    IsPdfFilenameIff("report.pdf.txt");
  }

  /**
    The `section_id` a parsed figure gets: the id of the section row at its
    `section_index`, when there is one and the index is within the rows.
   */
  function LinkSection(sectionIndex: Option<nat>, rows: seq<Section>): (r: Option<int>)
    ensures r.Some? <==> sectionIndex.Some? && sectionIndex.value < |rows|
    ensures r.Some? ==> r.value == rows[sectionIndex.value].id
  {
    if sectionIndex.Some? && sectionIndex.value < |rows| then Some(rows[sectionIndex.value].id) else None
  }

  function SectionRow(documentId: int, id: int, p: ParsedSection): Section {
    Section(id, documentId, p.headingText, p.headingLevel, p.pageStart, p.pageEnd, p.orderIndex)
  }

  function FigureRow(documentId: int, id: int, p: ParsedFigure, sectionRows: seq<Section>): Figure {
    Figure(id, documentId, LinkSection(p.sectionIndex, sectionRows), p.pageNumber, p.captionText, None, p.orderIndex)
  }

  /** The section rows of a new document, with ids counted up from `firstId`. */
  function SectionRows(documentId: int, firstId: int, parsed: seq<ParsedSection>): (r: seq<Section>)
    ensures |r| == |parsed|
    decreases |parsed|
  {
    if parsed == [] then [] else [SectionRow(documentId, firstId, parsed[0])] + SectionRows(documentId, firstId + 1, parsed[1..])
  }

  /** Row `i` stores parsed section `i` under id `firstId + i`. */
  lemma {:induction false} SectionRowsAt(documentId: int, firstId: int, parsed: seq<ParsedSection>)
    ensures forall i :: 0 <= i < |parsed| ==> SectionRows(documentId, firstId, parsed)[i] == SectionRow(documentId, firstId + i, parsed[i])
    decreases |parsed|
  {
    if parsed != [] {
      SectionRowsAt(documentId, firstId + 1, parsed[1..]);
    }
  }

  /** The figure rows of a new document, with ids counted up from `firstId`. */
  function FigureRows(documentId: int, firstId: int, parsed: seq<ParsedFigure>, sectionRows: seq<Section>): (r: seq<Figure>)
    ensures |r| == |parsed|
    decreases |parsed|
  {
    if parsed == [] then []
    else [FigureRow(documentId, firstId, parsed[0], sectionRows)] + FigureRows(documentId, firstId + 1, parsed[1..], sectionRows)
  }

  /** Row `i` stores parsed figure `i` under id `firstId + i`. */
  lemma {:induction false} FigureRowsAt(documentId: int, firstId: int, parsed: seq<ParsedFigure>, sectionRows: seq<Section>)
    ensures forall i :: 0 <= i < |parsed| ==>
      FigureRows(documentId, firstId, parsed, sectionRows)[i] == FigureRow(documentId, firstId + i, parsed[i], sectionRows)
    decreases |parsed|
  {
    if parsed != [] {
      FigureRowsAt(documentId, firstId + 1, parsed[1..], sectionRows);
    }
  }

  /**
    A figure row points at a section exactly when its parsed figure has a
    section index, provided every such index is within the parsed sections;
    the section it points at is one of the same document's new rows.
   */
  lemma {:induction false} FigureRowLinksOwnSection(documentId: int, firstId: int, parsed: Parsed, i: int)
    requires forall k :: 0 <= k < |parsed.figures| && parsed.figures[k].sectionIndex.Some? ==>
      parsed.figures[k].sectionIndex.value < |parsed.sections|
    requires 0 <= i < |parsed.figures|
    ensures
      var rows := SectionRows(documentId, firstId, parsed.sections);
      var f := FigureRows(documentId, firstId + |rows|, parsed.figures, rows)[i];
      && (f.sectionId.Some? <==> parsed.figures[i].sectionIndex.Some?)
      && (f.sectionId.Some? ==> exists s :: s in rows && s.id == f.sectionId.value && s.documentId == documentId)
  {
    var rows := SectionRows(documentId, firstId, parsed.sections);
    SectionRowsAt(documentId, firstId, parsed.sections);
    FigureRowsAt(documentId, firstId + |rows|, parsed.figures, rows);
    var f := FigureRows(documentId, firstId + |rows|, parsed.figures, rows)[i];
    if f.sectionId.Some? {
      assert rows[parsed.figures[i].sectionIndex.value] in rows;
    }
  }

  /**
    Every figure the parser found is linked to a section of its own
    document exactly when the parser gave it a section index: the parser's
    indexes are always within its sections.
   */
  lemma UploadLinksIndexedFigures(documentId: int, firstId: int, pages: seq<seq<string>>, i: int)
    requires 0 <= i < |ParseSpec(pages).figures|
    ensures
      var parsed := ParseSpec(pages);
      var rows := SectionRows(documentId, firstId, parsed.sections);
      var f := FigureRows(documentId, firstId + |rows|, parsed.figures, rows)[i];
      && (f.sectionId.Some? <==> parsed.figures[i].sectionIndex.Some?)
      && (f.sectionId.Some? ==> exists s :: s in rows && s.id == f.sectionId.value && s.documentId == documentId)
  {
    ParseSpecFacts(pages);
    FigureRowLinksOwnSection(documentId, firstId, ParseSpec(pages), i);
  }

  // ----- Writes and the constraints they keep -----

  /** One committed audit row for `u`: it takes the next id and the current clock, and the clock advances. */
  function Audit(t: Tables, u: User, action: Action, manufacturerId: Option<int>, documentId: Option<int>,
                 sectionId: Option<int>, meta: Metadata): Tables {
    t.(auditLogs := t.auditLogs + [AuditLog(t.nextId, u.id, u.role, action, manufacturerId, documentId, sectionId, meta, t.clock)],
       nextId := t.nextId + 1, clock := t.clock + 1)
  }

  /**
    The rows `upload_document` adds: the document, then its section rows,
    then its figure rows, each taking the next id.
   */
  function Stored(t: Tables, doc: Document, sectionRows: seq<Section>, figureRows: seq<Figure>): Tables {
    t.(documents := t.documents + [doc],
       sections := t.sections + sectionRows,
       figures := t.figures + figureRows,
       nextId := t.nextId + 1 + |sectionRows| + |figureRows|)
  }

  /** `Stored` with the section and figure rows that the parsed content yields, numbered after the document row. */
  function Uploaded(t: Tables, doc: Document, parsed: Parsed): Tables {
    var sectionRows := SectionRows(doc.id, t.nextId + 1, parsed.sections);
    Stored(t, doc, sectionRows, FigureRows(doc.id, t.nextId + 1 + |sectionRows|, parsed.figures, sectionRows))
  }

  lemma AuditKeepsConsistent(t: Tables, u: User, action: Action, manufacturerId: Option<int>, documentId: Option<int>,
                             sectionId: Option<int>, meta: Metadata)
    requires Consistent(t) && u in t.users
    ensures Consistent(Audit(t, u, action, manufacturerId, documentId, sectionId, meta))
  {
    assert u.id in UserIds(t.users);
    AppendAudit(t.auditLogs, t.users, t.clock,
      AuditLog(t.nextId, u.id, u.role, action, manufacturerId, documentId, sectionId, meta, t.clock));
  }

  lemma SessionAddedKeepsConsistent(t: Tables, session: SessionToken)
    requires Consistent(t)
    requires session.token !in Tokens(t.sessions) && session.userId in UserIds(t.users)
    ensures Consistent(t.(sessions := t.sessions + [session], nextId := t.nextId + 1))
  {
    var all := t.sessions + [session];
    forall i, j | 0 <= i < j < |all| ensures all[i].token != all[j].token {
      if j == |t.sessions| { assert all[i] in t.sessions; }
    }
  }

  lemma SessionsRemovedKeepConsistent(t: Tables, userId: int)
    requires Consistent(t)
    ensures Consistent(t.(sessions := SessionsWithoutUser(t.sessions, userId)))
  {
    FilterKeepsOrder(t.sessions, (s: SessionToken) => s.userId != userId,
      (a: SessionToken, b: SessionToken) => a.token != b.token);
  }

  lemma RevisedKeepsConsistent(t: Tables, i: nat, d: Document)
    requires Consistent(t) && i < |t.documents|
    requires d.id == t.documents[i].id && d.uploadedAt == t.documents[i].uploadedAt
    ensures Consistent(t.(documents := t.documents[i := d]))
  {
    var docs := t.documents[i := d];
    assert DocumentIds(docs) == DocumentIds(t.documents) by {
      forall id | id in DocumentIds(t.documents) ensures id in DocumentIds(docs) {
        var k :| 0 <= k < |t.documents| && t.documents[k].id == id;
        assert docs[k] in docs;
      }
      forall id | id in DocumentIds(docs) ensures id in DocumentIds(t.documents) {
        var k :| 0 <= k < |docs| && docs[k].id == id;
        assert t.documents[k] in t.documents;
      }
    }
  }

  lemma DeletedKeepsConsistent(t: Tables, documentId: int)
    requires Consistent(t)
    ensures Consistent(t.(documents := DocumentsAfterDelete(t.documents, documentId),
                          sections := SectionsAfterDelete(t.sections, documentId),
                          figures := FiguresAfterDelete(t.figures, t.sections, documentId)))
  {
    DocumentsAfterDeleteWellFormed(t.documents, documentId, t.nextId, t.clock);
    SectionsAfterDeleteWellFormed(t.sections, t.documents, documentId, t.nextId);
    FiguresAfterDeleteWellFormed(t.figures, t.sections, t.documents, documentId, t.nextId);
  }

  /** The new document's section rows have fresh increasing ids, its id, and increasing `order_index`. */
  lemma SectionRowsFresh(documentId: int, firstId: int, parsed: seq<ParsedSection>, rows: seq<Section>)
    requires forall i :: 0 <= i < |parsed| ==> parsed[i].orderIndex == i + 1
    requires rows == SectionRows(documentId, firstId, parsed)
    ensures forall r :: r in rows ==> r.documentId == documentId && firstId <= r.id < firstId + |rows|
    ensures forall i, j :: 0 <= i < j < |rows| ==> rows[i].id < rows[j].id && rows[i].orderIndex < rows[j].orderIndex
  {
    SectionRowsAt(documentId, firstId, parsed);
    forall r | r in rows ensures r.documentId == documentId && firstId <= r.id < firstId + |rows| {
      var i :| 0 <= i < |rows| && rows[i] == r;
    }
  }

  /**
    The new document's figure rows have fresh increasing ids, its id,
    increasing `order_index`, and sections only among its own section rows.
   */
  lemma FigureRowsFresh(documentId: int, firstId: int, parsed: seq<ParsedFigure>, sectionRows: seq<Section>, rows: seq<Figure>)
    requires forall i :: 0 <= i < |parsed| ==> parsed[i].orderIndex == i + 1
    requires forall s :: s in sectionRows ==> s.documentId == documentId
    requires rows == FigureRows(documentId, firstId, parsed, sectionRows)
    ensures forall f :: f in rows ==> f.documentId == documentId && firstId <= f.id < firstId + |rows|
    ensures forall f :: f in rows && f.sectionId.Some? ==> (f.sectionId.value, documentId) in SectionKeys(sectionRows)
    ensures forall i, j :: 0 <= i < j < |rows| ==> rows[i].id < rows[j].id && rows[i].orderIndex < rows[j].orderIndex
  {
    FigureRowsAt(documentId, firstId, parsed, sectionRows);
    forall f | f in rows
      ensures f.documentId == documentId && firstId <= f.id < firstId + |rows|
      ensures f.sectionId.Some? ==> (f.sectionId.value, documentId) in SectionKeys(sectionRows)
    {
      var i :| 0 <= i < |rows| && rows[i] == f;
      if f.sectionId.Some? {
        var s := sectionRows[parsed[i].sectionIndex.value];
        assert s in sectionRows;
      }
    }
  }

  lemma UploadedIs(t: Tables, doc: Document, parsed: Parsed, sectionRows: seq<Section>, figureRows: seq<Figure>)
    requires sectionRows == SectionRows(doc.id, t.nextId + 1, parsed.sections)
    requires figureRows == FigureRows(doc.id, t.nextId + 1 + |sectionRows|, parsed.figures, sectionRows)
    ensures Uploaded(t, doc, parsed) == Stored(t, doc, sectionRows, figureRows)
  {
  }

  /**
    The tables after an upload, `Audit(Stored(...))` spelled out field by
    field (`StoredShape`), so that `UploadDocument`'s proof and its ensures
    speak of the same terms.
   */
  ghost function UploadedTables(t: Tables, u: User, doc: Document, sectionRows: seq<Section>, figureRows: seq<Figure>,
                                manufacturerId: Option<int>, meta: Metadata): Tables {
    Tables(t.manufacturers, t.users, t.sessions,
           t.auditLogs + [AuditLog(t.nextId + 1 + |sectionRows| + |figureRows|, u.id, u.role, Action.UploadDoc,
                                   manufacturerId, Some(doc.id), None, meta, t.clock)],
           t.documents + [doc], t.sections + sectionRows, t.figures + figureRows,
           t.nextId + 2 + |sectionRows| + |figureRows|, t.clock + 1)
  }

  lemma StoredShape(t: Tables, u: User, doc: Document, sectionRows: seq<Section>, figureRows: seq<Figure>,
                    manufacturerId: Option<int>, meta: Metadata)
    ensures Audit(Stored(t, doc, sectionRows, figureRows), u, Action.UploadDoc, manufacturerId, Some(doc.id), None, meta)
         == UploadedTables(t, u, doc, sectionRows, figureRows, manufacturerId, meta)
  {
  }

  /** The document row and its parsed rows keep the document, section and figure constraints. */
  lemma UploadRowsWellFormed(t: Tables, doc: Document, parsed: Parsed, sectionRows: seq<Section>, figureRows: seq<Figure>,
                             nextId': int)
    requires DocumentsWellFormed(t.documents, t.nextId, t.clock)
    requires SectionsWellFormed(t.sections, t.documents, t.nextId)
    requires FiguresWellFormed(t.figures, t.sections, t.documents, t.nextId)
    requires doc.id == t.nextId && doc.uploadedAt == t.clock
    requires forall i :: 0 <= i < |parsed.sections| ==> parsed.sections[i].orderIndex == i + 1
    requires forall i :: 0 <= i < |parsed.figures| ==> parsed.figures[i].orderIndex == i + 1
    requires sectionRows == SectionRows(doc.id, t.nextId + 1, parsed.sections)
    requires figureRows == FigureRows(doc.id, t.nextId + 1 + |sectionRows|, parsed.figures, sectionRows)
    requires nextId' == t.nextId + 2 + |sectionRows| + |figureRows|
    ensures DocumentsWellFormed(t.documents + [doc], nextId', t.clock + 1)
    ensures SectionsWellFormed(t.sections + sectionRows, t.documents + [doc], nextId')
    ensures FiguresWellFormed(t.figures + figureRows, t.sections + sectionRows, t.documents + [doc], nextId')
  {
    AppendDocument(t.documents, t.nextId, t.clock, doc, nextId', t.clock + 1);
    SectionRowsFresh(doc.id, t.nextId + 1, parsed.sections, sectionRows);
    assert SectionsWellFormed(t.sections + sectionRows, t.documents + [doc], nextId') by {
      AppendDocumentSections(t.sections, t.documents, t.nextId, doc, sectionRows,
                             t.nextId + 1, t.nextId + 1 + |sectionRows|, nextId');
    }
    assert FiguresWellFormed(t.figures + figureRows, t.sections + sectionRows, t.documents + [doc], nextId') by {
      FigureRowsFresh(doc.id, t.nextId + 1 + |sectionRows|, parsed.figures, sectionRows, figureRows);
      AppendDocumentFigures(t.figures, t.sections, t.documents, t.nextId, doc, sectionRows, figureRows,
                            t.nextId + 1 + |sectionRows|, t.nextId + 1 + |sectionRows| + |figureRows|, nextId');
    }
  }

  /** An upload keeps every constraint once its new rows are known to be well formed. */
  lemma UploadKeepsConsistent(t: Tables, u: User, doc: Document, sectionRows: seq<Section>, figureRows: seq<Figure>,
                              manufacturerId: Option<int>, meta: Metadata)
    requires Consistent(t) && u in t.users
    requires DocumentsWellFormed(t.documents + [doc], t.nextId + 2 + |sectionRows| + |figureRows|, t.clock + 1)
    requires SectionsWellFormed(t.sections + sectionRows, t.documents + [doc], t.nextId + 2 + |sectionRows| + |figureRows|)
    requires FiguresWellFormed(t.figures + figureRows, t.sections + sectionRows, t.documents + [doc],
                               t.nextId + 2 + |sectionRows| + |figureRows|)
    ensures Consistent(UploadedTables(t, u, doc, sectionRows, figureRows, manufacturerId, meta))
  {
    assert u.id in UserIds(t.users);
    AppendAudit(t.auditLogs, t.users, t.clock,
      AuditLog(t.nextId + 1 + |sectionRows| + |figureRows|, u.id, u.role, Action.UploadDoc, manufacturerId, Some(doc.id), None, meta, t.clock));
  }

  // ----- The store -----

  /** The database, one field per table; each handler that writes is a method that changes the tables in place. */
  class Store {
    var manufacturers: seq<Manufacturer>
    var users: seq<User>
    var sessions: seq<SessionToken>
    var auditLogs: seq<AuditLog>
    var documents: seq<Document>
    var sections: seq<Section>
    var figures: seq<Figure>
    /** The next primary key to hand out; one counter serves every table. */
    var nextId: int
    /** The stamp of the next committed request. */
    var clock: nat

    /** The tables as one value. */
    function Snapshot(): Tables
      reads this
    {
      Tables(manufacturers, users, sessions, auditLogs, documents, sections, figures, nextId, clock)
    }

    ghost predicate Valid()
      reads this
    {
      Consistent(Snapshot())
    }

    /** A database with empty tables. */
    constructor ()
      ensures Valid()
      ensures Snapshot() == Tables([], [], [], [], [], [], [], 1, 0)
    {
      manufacturers, users, sessions, auditLogs := [], [], [], [];
      documents, sections, figures := [], [], [];
      nextId, clock := 1, 0;
    }

    /** `db.add(AuditLog(...))` and `db.commit()`: one audit row for `u`. */
    method Record(u: User, action: Action, manufacturerId: Option<int>, documentId: Option<int>,
                  sectionId: Option<int>, meta: Metadata)
      requires Valid() && u in users
      modifies this
      ensures Valid()
      ensures Snapshot() == Audit(old(Snapshot()), u, action, manufacturerId, documentId, sectionId, meta)
    {
      AuditKeepsConsistent(Snapshot(), u, action, manufacturerId, documentId, sectionId, meta);
      auditLogs := auditLogs + [AuditLog(nextId, u.id, u.role, action, manufacturerId, documentId, sectionId, meta, clock)];
      nextId := nextId + 1;
      clock := clock + 1;
    }

    /**
      `login`: `token` is the value `create_token` draws. A token that some
      session already holds breaks the unique constraint at commit, which
      surfaces as a 500 and stores nothing.
     */
    method Login(username: string, password: string, verify: (string, string) -> bool, token: string)
      returns (r: Result<LoginResponse>)
      requires Valid()
      modifies this
      ensures Valid()
      ensures r.Err? ==> unchanged(this)
      ensures CheckCredentials(old(users), username, password, verify).Err? ==>
        r == Err(CheckCredentials(old(users), username, password, verify).error)
      ensures CheckCredentials(old(users), username, password, verify).Ok? && token in Tokens(old(sessions)) ==>
        r == Err(Internal("Internal Server Error"))
      ensures r.Ok? <==> CheckCredentials(old(users), username, password, verify).Ok? && token !in Tokens(old(sessions))
      ensures r.Ok? ==>
        var u := CheckCredentials(old(users), username, password, verify).value;
        && r.value == LoginResponse(token, ToUserOut(u))
        && Snapshot() == Audit(old(Snapshot()).(sessions := old(sessions) + [SessionToken(old(nextId), u.id, token, old(clock))],
                                                nextId := old(nextId) + 1),
                               u, Action.Login, None, None, None, UsernameMeta(u.username))
    {
      var checked := CheckCredentials(users, username, password, verify);
      if checked.Err? {
        return Err(checked.error);
      }
      var u := checked.value;
      if token in Tokens(sessions) {
        return Err(Internal("Internal Server Error"));
      }
      assert u.id in UserIds(users);
      var session := SessionToken(nextId, u.id, token, clock);
      SessionAddedKeepsConsistent(Snapshot(), session);
      sessions := sessions + [session];
      nextId := nextId + 1;
      Record(u, Action.Login, None, None, None, UsernameMeta(u.username));
      r := Ok(LoginResponse(token, ToUserOut(u)));
    }

    /** `logout`: every session of the caller's user goes, not only the one presented. */
    method Logout(header: Option<string>) returns (r: Result<string>)
      requires Valid()
      modifies this
      ensures Valid()
      ensures r.Err? ==> unchanged(this)
      ensures CurrentUser(header, old(sessions), old(users)).Err? ==> r == Err(CurrentUser(header, old(sessions), old(users)).error)
      ensures r.Ok? <==> CurrentUser(header, old(sessions), old(users)).Ok?
      ensures r.Ok? ==>
        var u := CurrentUser(header, old(sessions), old(users)).value;
        && r.value == "ok"
        && Snapshot() == Audit(old(Snapshot()).(sessions := SessionsWithoutUser(old(sessions), u.id)),
                               u, Action.Logout, None, None, None, UsernameMeta(u.username))
    {
      var principal := CurrentUser(header, sessions, users);
      if principal.Err? {
        return Err(principal.error);
      }
      var u := principal.value;
      SessionsRemovedKeepConsistent(Snapshot(), u.id);
      sessions := SessionsWithoutUser(sessions, u.id);
      Record(u, Action.Logout, None, None, None, UsernameMeta(u.username));
      r := Ok("ok");
    }

    /** `list_documents`: the manufacturer's documents, newest first, and one audit row with their count. */
    method ListDocuments(header: Option<string>, manufacturerId: int) returns (r: Result<seq<Document>>)
      requires Valid()
      modifies this
      ensures Valid()
      ensures r.Err? ==> unchanged(this)
      ensures CurrentUser(header, old(sessions), old(users)).Err? ==> r == Err(CurrentUser(header, old(sessions), old(users)).error)
      ensures r.Ok? <==> CurrentUser(header, old(sessions), old(users)).Ok?
      ensures r.Ok? ==>
        && r.value == DocumentList(old(documents), manufacturerId)
        && Snapshot() == Audit(old(Snapshot()), CurrentUser(header, old(sessions), old(users)).value,
                               Action.ViewDocList, Some(manufacturerId), None, None, CountMeta(|r.value|))
    {
      var principal := CurrentUser(header, sessions, users);
      if principal.Err? {
        return Err(principal.error);
      }
      var listed := DocumentList(documents, manufacturerId);
      Record(principal.value, Action.ViewDocList, Some(manufacturerId), None, None, CountMeta(|listed|));
      r := Ok(listed);
    }

    /** `list_sections`: the document's sections in `order_index` order, and one audit row with their count. */
    method ListSections(header: Option<string>, documentId: int) returns (r: Result<seq<Section>>)
      requires Valid()
      modifies this
      ensures Valid()
      ensures r.Err? ==> unchanged(this)
      ensures CurrentUser(header, old(sessions), old(users)).Err? ==> r == Err(CurrentUser(header, old(sessions), old(users)).error)
      ensures r.Ok? <==> CurrentUser(header, old(sessions), old(users)).Ok?
      ensures r.Ok? ==>
        && r.value == SectionList(old(sections), documentId)
        && Snapshot() == Audit(old(Snapshot()), CurrentUser(header, old(sessions), old(users)).value,
                               Action.ViewSectionList, None, Some(documentId), None, CountMeta(|r.value|))
    {
      var principal := CurrentUser(header, sessions, users);
      if principal.Err? {
        return Err(principal.error);
      }
      var listed := SectionList(sections, documentId);
      Record(principal.value, Action.ViewSectionList, None, Some(documentId), None, CountMeta(|listed|));
      r := Ok(listed);
    }

    /** `list_figures`: the section's figures in `order_index` order, and one audit row with their count. */
    method ListFigures(header: Option<string>, sectionId: int) returns (r: Result<seq<Figure>>)
      requires Valid()
      modifies this
      ensures Valid()
      ensures r.Err? ==> unchanged(this)
      ensures CurrentUser(header, old(sessions), old(users)).Err? ==> r == Err(CurrentUser(header, old(sessions), old(users)).error)
      ensures r.Ok? <==> CurrentUser(header, old(sessions), old(users)).Ok?
      ensures r.Ok? ==>
        && r.value == FigureList(old(figures), sectionId)
        && Snapshot() == Audit(old(Snapshot()), CurrentUser(header, old(sessions), old(users)).value,
                               Action.ViewSection, None, None, Some(sectionId), CountMeta(|r.value|))
    {
      var principal := CurrentUser(header, sessions, users);
      if principal.Err? {
        return Err(principal.error);
      }
      var listed := FigureList(figures, sectionId);
      Record(principal.value, Action.ViewSection, None, None, Some(sectionId), CountMeta(|listed|));
      r := Ok(listed);
    }

    /**
      `search_tool`: `results` is what the external search returned; the
      handler answers it unchanged and records the query and the count.
     */
    method SearchTool(header: Option<string>, query: string, results: seq<SearchResult>) returns (r: Result<SearchResponse>)
      requires Valid()
      modifies this
      ensures Valid()
      ensures r.Err? ==> unchanged(this)
      ensures CurrentUser(header, old(sessions), old(users)).Err? ==> r == Err(CurrentUser(header, old(sessions), old(users)).error)
      ensures r.Ok? <==> CurrentUser(header, old(sessions), old(users)).Ok?
      ensures r.Ok? ==>
        && r.value == SearchResponse(query, results)
        && Snapshot() == Audit(old(Snapshot()), CurrentUser(header, old(sessions), old(users)).value,
                               Action.SearchTool, None, None, None, SearchMeta(query, |results|))
    {
      var principal := CurrentUser(header, sessions, users);
      if principal.Err? {
        return Err(principal.error);
      }
      Record(principal.value, Action.SearchTool, None, None, None, SearchMeta(query, |results|));
      r := Ok(SearchResponse(query, results));
    }

    /**
      `update_document`: admins only; a missing document is a 404; otherwise
      the fields sent non-empty are overwritten and the update is recorded
      with the title and revision date as sent.
     */
    method UpdateDocument(header: Option<string>, documentId: int, title: Option<string>, revisionDate: Option<string>,
                          tags: Option<string>) returns (r: Result<Document>)
      requires Valid()
      modifies this
      ensures Valid()
      ensures r.Err? ==> unchanged(this)
      ensures RequireAdmin(header, old(sessions), old(users)).Err? ==> r == Err(RequireAdmin(header, old(sessions), old(users)).error)
      ensures RequireAdmin(header, old(sessions), old(users)).Ok? && documentId !in DocumentIds(old(documents)) ==>
        r == Err(NotFound("Document not found"))
      ensures r.Ok? <==> RequireAdmin(header, old(sessions), old(users)).Ok? && documentId in DocumentIds(old(documents))
      ensures r.Ok? ==>
        var i := FindDocument(old(documents), documentId).value;
        && r.value == Revise(old(documents)[i], title, revisionDate, tags)
        && Snapshot() == Audit(old(Snapshot()).(documents := old(documents)[i := r.value]),
                               RequireAdmin(header, old(sessions), old(users)).value,
                               Action.UpdateDoc, None, Some(documentId), None, UpdateMeta(title, revisionDate))
    {
      var principal := RequireAdmin(header, sessions, users);
      if principal.Err? {
        return Err(principal.error);
      }
      var found := FindDocument(documents, documentId);
      if found.None? {
        return Err(NotFound("Document not found"));
      }
      var i := found.value;
      var revised := Revise(documents[i], title, revisionDate, tags);
      RevisedKeepsConsistent(Snapshot(), i, revised);
      documents := documents[i := revised];
      Record(principal.value, Action.UpdateDoc, None, Some(documentId), None, UpdateMeta(title, revisionDate));
      r := Ok(revised);
    }

    /**
      `delete_document`: admins only; a missing document is a 404; otherwise
      the document goes together with its sections and figures, and with
      the figures of its sections.
     */
    method DeleteDocument(header: Option<string>, documentId: int) returns (r: Result<string>)
      requires Valid()
      modifies this
      ensures Valid()
      ensures r.Err? ==> unchanged(this)
      ensures RequireAdmin(header, old(sessions), old(users)).Err? ==> r == Err(RequireAdmin(header, old(sessions), old(users)).error)
      ensures RequireAdmin(header, old(sessions), old(users)).Ok? && documentId !in DocumentIds(old(documents)) ==>
        r == Err(NotFound("Document not found"))
      ensures r.Ok? <==> RequireAdmin(header, old(sessions), old(users)).Ok? && documentId in DocumentIds(old(documents))
      ensures r.Ok? ==>
        && r.value == "deleted"
        && Snapshot() == Audit(old(Snapshot()).(documents := DocumentsAfterDelete(old(documents), documentId),
                                                sections := SectionsAfterDelete(old(sections), documentId),
                                                figures := FiguresAfterDelete(old(figures), old(sections), documentId)),
                               RequireAdmin(header, old(sessions), old(users)).value,
                               Action.DeleteDoc, None, Some(documentId), None, NoMetadata)
    {
      var principal := RequireAdmin(header, sessions, users);
      if principal.Err? {
        return Err(principal.error);
      }
      var found := FindDocument(documents, documentId);
      if found.None? {
        return Err(NotFound("Document not found"));
      }
      ghost var t := Snapshot();
      figures := FiguresAfterDelete(figures, sections, documentId);
      sections := SectionsAfterDelete(sections, documentId);
      documents := DocumentsAfterDelete(documents, documentId);
      assert Snapshot() == t.(documents := DocumentsAfterDelete(t.documents, documentId),
                              sections := SectionsAfterDelete(t.sections, documentId),
                              figures := FiguresAfterDelete(t.figures, t.sections, documentId));
      DeletedKeepsConsistent(t, documentId);
      Record(principal.value, Action.DeleteDoc, None, Some(documentId), None, NoMetadata);
      r := Ok("deleted");
    }

    /** The `section_models` loop of `upload_document`. */
    static method BuildSectionRows(documentId: int, firstId: int, parsed: seq<ParsedSection>) returns (rows: seq<Section>)
      ensures rows == SectionRows(documentId, firstId, parsed)
    {
      SectionRowsAt(documentId, firstId, parsed);
      rows := [];
      for i := 0 to |parsed|
        invariant |rows| == i
        invariant forall k :: 0 <= k < i ==> rows[k] == SectionRow(documentId, firstId + k, parsed[k])
      {
        var p := parsed[i];
        rows := rows + [Section(firstId + i, documentId, p.headingText, p.headingLevel, p.pageStart, p.pageEnd, p.orderIndex)];
      }
    }

    /** The `figure_models` loop of `upload_document`, which links each figure to its section row. */
    static method BuildFigureRows(documentId: int, firstId: int, parsed: seq<ParsedFigure>, sectionRows: seq<Section>)
      returns (rows: seq<Figure>)
      ensures rows == FigureRows(documentId, firstId, parsed, sectionRows)
    {
      FigureRowsAt(documentId, firstId, parsed, sectionRows);
      rows := [];
      for i := 0 to |parsed|
        invariant |rows| == i
        invariant forall k :: 0 <= k < i ==> rows[k] == FigureRow(documentId, firstId + k, parsed[k], sectionRows)
      {
        var p := parsed[i];
        var sectionId: Option<int> := None;
        if p.sectionIndex.Some? && p.sectionIndex.value < |sectionRows| {
          sectionId := Some(sectionRows[p.sectionIndex.value].id);
        }
        rows := rows + [Figure(firstId + i, documentId, sectionId, p.pageNumber, p.captionText, None, p.orderIndex)];
      }
    }

    /**
      The writes of `upload_document` once the file is parsed: the document
      row, its section rows, its figure rows linked to those sections, and
      the audit row with their counts, all in one commit.
     */
    method StoreParsed(u: User, manufacturerId: int, title: string, revisionDate: Option<string>, tags: Option<string>,
                       filename: string, parsed: Parsed) returns (document: Document)
      requires Valid() && u in users
      requires forall i :: 0 <= i < |parsed.sections| ==> parsed.sections[i].orderIndex == i + 1
      requires forall i :: 0 <= i < |parsed.figures| ==> parsed.figures[i].orderIndex == i + 1
      modifies this
      ensures Valid()
      ensures document == Document(old(nextId), manufacturerId, title, filename, StorageKey(filename), u.id, old(clock), revisionDate, tags)
      ensures Snapshot() == Audit(Uploaded(old(Snapshot()), document, parsed), u, Action.UploadDoc, Some(manufacturerId),
                                  Some(document.id), None, UploadMeta(|parsed.sections|, |parsed.figures|))
    {
      var storageKey := StorageKey(filename);
      document := Document(nextId, manufacturerId, title, filename, storageKey, u.id, clock, revisionDate, tags);
      var sectionRows := BuildSectionRows(document.id, nextId + 1, parsed.sections);
      var figureRows := BuildFigureRows(document.id, nextId + 1 + |sectionRows|, parsed.figures, sectionRows);
      ghost var t := Tables(manufacturers, users, sessions, auditLogs, documents, sections, figures, nextId, clock);
      var meta := UploadMeta(|parsed.sections|, |parsed.figures|);
      var entry := AuditLog(nextId + 1 + |sectionRows| + |figureRows|, u.id, u.role, Action.UploadDoc, Some(manufacturerId),
                            Some(document.id), None, meta, clock);
      var nextId' := nextId + 2 + |sectionRows| + |figureRows|;
      UploadedIs(t, document, parsed, sectionRows, figureRows);
      StoredShape(t, u, document, sectionRows, figureRows, Some(manufacturerId), meta);
      documents := documents + [document];
      sections := sections + sectionRows;
      figures := figures + figureRows;
      auditLogs := auditLogs + [entry];
      nextId := nextId';
      clock := clock + 1;
      assert Snapshot() == UploadedTables(t, u, document, sectionRows, figureRows, Some(manufacturerId), meta);
      UploadRowsWellFormed(t, document, parsed, sectionRows, figureRows, nextId);
      UploadKeepsConsistent(t, u, document, sectionRows, figureRows, Some(manufacturerId), meta);
    }

    /**
      `upload_document`: admins only; a name that does not end in `.pdf`
      (in any case) is a 400 before anything is stored; otherwise the pages
      are parsed and the document, its sections and its figures are stored
      and recorded with their counts. `pages` stands for the text of the
      uploaded file.
     */
    method UploadDocument(header: Option<string>, manufacturerId: int, title: string, revisionDate: Option<string>,
                          tags: Option<string>, filename: string, pages: seq<seq<string>>) returns (r: Result<Document>)
      requires Valid()
      modifies this
      ensures Valid()
      ensures r.Err? ==> unchanged(this)
      ensures RequireAdmin(header, old(sessions), old(users)).Err? ==> r == Err(RequireAdmin(header, old(sessions), old(users)).error)
      ensures RequireAdmin(header, old(sessions), old(users)).Ok? && !IsPdfFilename(filename) ==>
        r == Err(BadRequest("Only PDF files allowed"))
      ensures r.Ok? <==> RequireAdmin(header, old(sessions), old(users)).Ok? && IsPdfFilename(filename)
      ensures r.Ok? ==>
        var u := RequireAdmin(header, old(sessions), old(users)).value;
        var parsed := ParseSpec(pages);
        && r.value == Document(old(nextId), manufacturerId, title, filename, StorageKey(filename), u.id, old(clock), revisionDate, tags)
        && Snapshot() == Audit(Uploaded(old(Snapshot()), r.value, parsed), u, Action.UploadDoc, Some(manufacturerId),
                               Some(r.value.id), None, UploadMeta(|parsed.sections|, |parsed.figures|))
    {
      var principal := RequireAdmin(header, sessions, users);
      if principal.Err? {
        return Err(principal.error);
      }
      var u := principal.value;
      if !IsPdfFilename(filename) {
        return Err(BadRequest("Only PDF files allowed"));
      }
      var parsedSections, parsedFigures := ParsePdf(pages);
      var document := StoreParsed(u, manufacturerId, title, revisionDate, tags, filename, Parsed(parsedSections, parsedFigures));
      r := Ok(document);
    }

    /** `list_audit_logs`: admins only; reads the log and writes nothing. */
    function ListAuditLogs(header: Option<string>): (r: Result<seq<AuditLog>>)
      reads this
      ensures RequireAdmin(header, sessions, users).Err? ==> r == Err(RequireAdmin(header, sessions, users).error)
      ensures r.Ok? <==> RequireAdmin(header, sessions, users).Ok?
      ensures r.Ok? ==> r.value == AuditPage(auditLogs)
    {
      var principal := RequireAdmin(header, sessions, users);
      if principal.Err? then Err(principal.error) else Ok(AuditPage(auditLogs))
    }
  }
}
