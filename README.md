# A verified model of the ndt document backend

The ndt backend is a FastAPI service for aircraft-manufacturer manuals. Users
log in and get a bearer token. Admins upload PDF manuals, and the backend
splits them into sections and figures by scanning the text of each page.
Every login, logout, listing of documents, sections or figures, search,
upload, update and delete leaves one row in an audit log; downloading a
PDF, listing the manufacturers and viewing the audit log leave none.
This project models the core of that service in Dafny:

- `outcomes.dfy` (module `Outcomes`): `Option`, and `Result` with the HTTP
  errors the handlers raise (401, 403, 404, 400, and 500 for an uncaught
  constraint failure).
- `text.dfy` (module `Text`): the parts of Python's `str` that the core uses
  (`strip`, `startswith`, `endswith`, `replace`, `lower`), and the regex
  classes `\s`, `\d` and `\w`, all over ASCII.
- `seqs.dfy` (module `Seqs`): filtering and reversal, which stand for the
  ORM's `filter` and `order_by ... desc`.
- `models.dfy` (module `Models`): the tables of `server/app/models.py` as
  datatypes. Also the constraints that hold between their rows (unique names,
  tokens and ids, references, ordering), and the cascade that deleting a
  document triggers.
- `auth.py` → `auth.dfy` (module `Auth`): parsing the bearer header, looking
  up the session and the user (`get_current_user`), and `require_admin`.
- `storage.py` → `storage.dfy` (module `Storage`): the storage key that
  `save_pdf` derives from a file name.
- `pdf_parser.py` → `pdf_parser.dfy` (module `PdfParser`):
  - the heading regex and the figure regex, written out exactly;
  - `_detect_sections` and `parse_pdf` as loops, each proved to compute a
    specification function;
  - the ordering, numbering and linking facts proved about that function.
- `server_app_main.py` → `handlers.dfy` (module `Handlers`):
  - the database is a class `Store` with one field per table;
  - every modelled handler that changes the tables is a method that checks
    the caller (through module `Auth`, or the credentials for `Login`),
    makes its own checks, and then changes the tables in place;
    `ListAuditLogs` writes nothing and is a function of the current state;
  - each such method's `ensures` gives the exact new state as a function of the
    old one, and states that the table constraints (`Valid`) still hold;
  - a refused request changes nothing and writes no audit row.
- `server_app_seed.py` → `seed.dfy` (module `Seed`): `seed_data`, which
  fills each of the manufacturers and users tables only when it is empty.

Things outside the model become parameters:

- bcrypt's `verify_password` is a function-typed parameter
  (`verify: (string, string) -> bool`).
- The fresh token of `create_token` is an input of `Login`.
- The text that the PDF library extracts is an input: one sequence of lines
  per page.
- The password hashes that seeding stores are inputs.
- The results of the external product search are an input.

The time columns are stamps of an abstract clock that advances once per
committed request.

## Model

| member | source | states |
|---|---|---|
| Text.Strip | server/app/auth.py:32 | `str.strip()`: the result has no whitespace at either end, and is empty exactly when the input is all whitespace |
| Text.IsSpace | server/app/pdf_parser.py:32 | the whitespace of `str.strip()` and of `\s` on ASCII: space, tab, line feed, carriage return, 0x0B, 0x0C and the separators 0x1C to 0x1F |
| Text.StripCutsBlankEnds | server/app/pdf_parser.py:32 | what `strip` removes is a whitespace prefix and a whitespace suffix; the text between them is kept as it was |
| Text.StripIdempotent | server/app/pdf_parser.py:32-34 | stripping a stripped line changes nothing, so the heading matched is the heading stored |
| Text.StripAll | server/app/pdf_parser.py:31-32 | `strip()` applied to every line of a page, one result per line |
| Text.UnitSeparatorStripsAway | server/app/pdf_parser.py:46 | the separators 0x1C to 0x1F count as whitespace, as they do for `str.strip()`: a line holding only 0x1F strips to nothing |
| Text.LowerString | server_app_main.py:122 | `lower()` keeps the length and lower-cases each character |
| Text.ReplaceChar | server/app/storage.py:11 | `replace(" ", "_")` keeps the length; each space becomes `_` and every other character stays |
| Text.IndexOfFrom | server/app/auth.py:32 | `find` returns the first position at or after the start where the pattern occurs, and none when it never occurs |
| Text.RemovePrefixOccurrence | server/app/auth.py:32 | removing the first `"Bearer "` from a header that starts with it drops exactly that prefix |
| Text.ReplaceFirst | server/app/auth.py:32 | `replace(pat, rep, 1)`: the first occurrence of the pattern is replaced, and a string without one is returned as it is |
| Text.StartsWith | server/app/auth.py:29 | `startswith`: the string begins with the prefix, character for character and case-sensitively |
| Text.EndsWith | server_app_main.py:122 | `endswith`: the string ends with the suffix, character for character |
| Seqs.FilterKeepsOrder | server_app_main.py:252 | a filtered query keeps every order its rows had in the table |
| Seqs.Reverse | server_app_main.py:97 | `desc` ordering: the result is the input from last to first, with the same elements |
| Models.FiguresOfSectionShareDocument | server/app/models.py:68-80 | with unique section ids, all figures of one section belong to one document |
| Models.Consistent | server/app/models.py:11-103 | declared on the tables: unique manufacturer names, usernames, user ids and tokens; sessions and audit rows reference users. Kept only by the handlers: ids below the next id, audit rows in time order, documents by increasing upload time, sections and figures of a document by increasing `order_index`, and a figure's section belonging to the figure's own document (the database does not enforce the last) |
| Models.AppendAudit | server/app/models.py:83-94 | an audit row for an existing user, stamped with the current time, keeps the log referencing users and in time order |
| Models.AppendDocument | server/app/models.py:34-50 | a document with the next id and the current time keeps document ids unique and upload times increasing |
| Models.AppendDocumentSections | server/app/models.py:53-65 | a new document's sections with fresh ids and increasing `order_index` keep the sections table well formed |
| Models.AppendDocumentFigures | server/app/models.py:68-80 | a new document's figures with fresh ids and sections from their own document keep the figures table well formed |
| Models.DeleteCascades | server/app/models.py:49-50 | after deleting a document, no document has its id, no section or figure belongs to it, no figure points at one of its sections, and every other document and section stays |
| Models.DocumentsAfterDelete | server_app_main.py:233 | `db.delete(document)`: the documents with another id, in their order |
| Models.SectionsAfterDelete | server/app/models.py:49 | the `sections` cascade: the sections of other documents, in their order |
| Models.FiguresAfterDelete | server/app/models.py:50 | the `figures` cascades of the document and of its sections: the figures that belong to another document and point at no deleted section |
| Models.OtherFiguresKeepTheirSections | server/app/models.py:65 | the section cascade removes no figure of another document |
| Models.DocumentsAfterDeleteWellFormed | server/app/models.py:34-50 | the documents that remain after a delete still have unique ids and increasing upload times |
| Models.SectionsAfterDeleteWellFormed | server/app/models.py:49 | the sections that remain all belong to documents that remain |
| Models.FiguresAfterDeleteWellFormed | server/app/models.py:49-50 | a figure survives the delete exactly when it belongs to another document, and the survivors point only at surviving sections |
| Auth.BearerToken | server/app/auth.py:28-32 | no token is presented exactly when the header is missing or does not start with the case-sensitive `"Bearer "`; otherwise the token is the rest of the header, stripped |
| Auth.BearerTokenStripsWhitespace | server/app/auth.py:32 | `"Bearer  abc "` presents the token `abc` |
| Auth.LowerCaseSchemeRejected | server/app/auth.py:29 | `"bearer abc"` presents no token |
| Auth.FindSession | server/app/auth.py:33 | a session with the token is found exactly when some session holds it |
| Auth.FindUser | server/app/auth.py:37 | a user with the id is found exactly when some user has it |
| Auth.CurrentUser | server/app/auth.py:27-40 | every failure is a 401; "Missing token" when no token is presented and "Invalid token" when no session holds it; a success is an active user that owns a session with the token |
| Auth.AuthenticatesIff | server/app/auth.py:33-40 | with unique tokens and user ids, a session's active user is returned; a missing or inactive user gives "Inactive user", and the session row is kept |
| Auth.RequireAdmin | server/app/auth.py:43-46 | authentication failures stay 401 and are never 403; an authenticated non-admin gets 403 "Admin only"; an admin gets back the same user |
| Storage.StorageKeyShape | server/app/storage.py:11-12 | the key is `pdfs/` plus the name with each space as `_` and every other character kept; it is five characters longer than the name and holds no space |
| Storage.StorageKey | server/app/storage.py:11-12 | the key `save_pdf` returns: `pdfs/` and then the name with spaces made underscores; `StorageKeyShape` and `StorageKeyCollides` state its properties |
| Storage.StorageKeyCollides | server/app/storage.py:11-12 | two names get the same key exactly when they have equal length and agree at each position, where a space and `_` count as equal |
| Storage.SpaceAndUnderscoreCollide | server/app/storage.py:11-12 | `a b.pdf` and `a_b.pdf` are both stored as `pdfs/a_b.pdf` |
| PdfParser.NumberPrefixLength | server/app/pdf_parser.py:30 | the length of the leading run of digits and dots: everything before it is a digit or a dot, and the next character is neither |
| PdfParser.SpaceRunLength | server/app/pdf_parser.py:30 | the length of the leading run of whitespace, and the next character is not whitespace |
| PdfParser.NumberEndsAtSplit | server/app/pdf_parser.py:30 | in any match of the heading regex, the number group ends where the leading run of digits and dots ends |
| PdfParser.SpaceRunCoversSplit | server/app/pdf_parser.py:30 | in any match on a stripped line, the whitespace after the number lies inside the whole run of whitespace, and text follows it |
| PdfParser.IsHeadingLineCorrect | server/app/pdf_parser.py:30-33 | on a stripped line, the one-pass test accepts exactly the lines that `^(\d+(?:\.\d+)*)\s+(.+)$` matches |
| PdfParser.MatchesHeadingPattern | server/app/pdf_parser.py:30 | the heading regex: some split of the line into a dotted number, a run of whitespace and a non-empty rest without a line feed |
| PdfParser.IsHeadingLine | server/app/pdf_parser.py:30-32 | the executable one-pass test that `IsHeadingLineCorrect` proves equal to the regex on stripped lines |
| PdfParser.DottedNumberHeading | server/app/pdf_parser.py:30 | `1.2 Scope` is a heading |
| PdfParser.TrailingDotIsNotHeading | server/app/pdf_parser.py:30 | `1. Intro` is not a heading |
| PdfParser.SearchFigureFromIff | server/app/pdf_parser.py:61 | the search from a position succeeds exactly when the figure pattern matches at some later position |
| PdfParser.MentionsFigureIff | server/app/pdf_parser.py:61 | `re.search` finds the figure pattern exactly when it matches at some position of the line |
| PdfParser.MentionsFigure | server/app/pdf_parser.py:61 | `re.search` of `\b(Figure|Fig\.)\b` with IGNORECASE, as a scan over the start positions; `MentionsFigureIff` relates it to a match at some position |
| PdfParser.FigDotDigitMatches | server/app/pdf_parser.py:61 | `Fig.3` mentions a figure |
| PdfParser.FigDotSpaceDoesNotMatch | server/app/pdf_parser.py:61 | `Fig. 3` does not mention a figure, because no word boundary follows the dot |
| PdfParser.FiguresDoesNotMatch | server/app/pdf_parser.py:61 | `Figures` does not mention a figure |
| PdfParser.UpperCaseFigureMatches | server/app/pdf_parser.py:61 | case is ignored: `see FIGURE 2` mentions a figure |
| PdfParser.MentionsFigureNotBlank | server/app/pdf_parser.py:46 | a line that mentions a figure is not blank, so the blank-line filter never drops a figure |
| PdfParser.Headings | server/app/pdf_parser.py:28-35 | the headings are stripped lines that match the heading pattern, at most one per line, and every line whose stripped text matches is among them |
| PdfParser.HeadingsAreMatchingLines | server/app/pdf_parser.py:28-35 | the headings are exactly the stripped lines that match the pattern, in input order, with repeated lines kept |
| PdfParser.DetectSections | server/app/pdf_parser.py:28-35 | the loop of `_detect_sections` returns exactly the stripped matching lines, in input order |
| PdfParser.PageSections | server/app/pdf_parser.py:48-58 | each heading of a page becomes one `H1` section on that page, numbered on consecutively |
| PdfParser.PageFigures | server/app/pdf_parser.py:60-69 | every figure of a page has the page number, the given section index, the next order number, and a non-blank stripped caption |
| PdfParser.PageFiguresAreMentioningLines | server/app/pdf_parser.py:60-69 | the figures of a page are exactly its lines that mention a figure: one each, in line order, each captioned by its stripped line |
| PdfParser.NonBlankLines | server/app/pdf_parser.py:46 | a line is kept exactly when it is not all whitespace |
| PdfParser.ScanPage | server/app/pdf_parser.py:45-69 | one turn of the page loop: the page's headings become sections, then its figure lines become figures linked to the last section so far |
| PdfParser.LastIndex | server/app/pdf_parser.py:64 | `len(sections) - 1 if sections else None`: none exactly when there is no section, otherwise the index of the last one |
| PdfParser.Scan | server/app/pdf_parser.py:44-69 | the page loop over all pages, numbered from 1, before the fallback; `ScanFactsHold` states what it yields |
| PdfParser.Overview | server/app/pdf_parser.py:72-80 | the fallback section "Document Overview", `H1`, from page 1 to the page count, order 1 |
| PdfParser.ParseSpec | server/app/pdf_parser.py:38-82 | `parse_pdf`: the page loop, then the fallback when no heading was found; `ParseSpecFacts`, `NoHeadingFallback` and `HeadingsFound` state what it yields |
| PdfParser.LastSectionUpTo | server/app/pdf_parser.py:64 | the last section that starts on the page or earlier: no later section starts that early, and there is none when no section does |
| PdfParser.LastSectionUpToAppend | server/app/pdf_parser.py:64 | sections found on later pages do not change which section an earlier page falls under |
| PdfParser.SectionsStep | server/app/pdf_parser.py:44-58 | one page's headings keep every section an `H1` on one page, numbered from 1, in page order |
| PdfParser.FiguresStep | server/app/pdf_parser.py:60-69 | after one page, every figure points at the last section that starts on its page or earlier, including headings of the same page |
| PdfParser.ScanFigurePagesOrdered | server/app/pdf_parser.py:61-70 | after one page the figures are still sorted by page: the earlier ones lie on earlier pages and the page's new ones all on this page |
| PdfParser.ScanPageFacts | server/app/pdf_parser.py:44-69 | one turn of the page loop keeps the section and figure facts for one more page |
| PdfParser.ScanFactsHold | server/app/pdf_parser.py:44-69 | the page loop numbers sections and figures 1, 2, 3, …, and both come out sorted by page (line order within a page is `HeadingsAreMatchingLines` and `PageFiguresAreMentioningLines`); every section is an `H1` on one page; every caption is a non-blank stripped line; every figure points at the last section detected up to its page |
| PdfParser.ParseSpecFacts | server/app/pdf_parser.py:38-82 | `parse_pdf` returns at least one section, with sections and figures numbered from 1, and every present section index is below the number of sections |
| PdfParser.NoHeadingFallback | server/app/pdf_parser.py:71-80 | when no page has a heading, the sections are exactly "Document Overview", `H1`, pages 1 to the page count, order 1, and no figure has a section |
| PdfParser.HeadingsFound | server/app/pdf_parser.py:71 | when some heading is found, no fallback is added and the page-loop facts hold for the result |
| PdfParser.PageSectionsSnoc | server/app/pdf_parser.py:48-58 | one more heading adds one more section |
| PdfParser.PageFiguresSnocMatch | server/app/pdf_parser.py:60-69 | a line that mentions a figure adds one figure, numbered next |
| PdfParser.PageFiguresSnocNoMatch | server/app/pdf_parser.py:60-61 | a line that does not mention a figure adds none |
| PdfParser.ScanPageIs | server/app/pdf_parser.py:44-69 | the page loop's state after one turn |
| PdfParser.ScanSnoc | server/app/pdf_parser.py:44 | scanning one more page is one more turn of the page loop |
| PdfParser.AddPageSections | server/app/pdf_parser.py:48-58 | the heading loop appends the page's sections, and `order_index` ends one past the number of sections |
| PdfParser.AddPageFigures | server/app/pdf_parser.py:60-69 | the figure loop appends the page's figures, each linked to the last section so far |
| PdfParser.ParsePage | server/app/pdf_parser.py:45-69 | one turn of the page loop computes exactly one step of the specification |
| PdfParser.ScanPages | server/app/pdf_parser.py:44-69 | the page loop computes exactly the specification's scan |
| PdfParser.ParsePdf | server/app/pdf_parser.py:38-82 | `parse_pdf` computes the specification: at least one section, consecutive `order_index` values from 1, every section index within the sections |
| Handlers.FindUserByName | server_app_main.py:47 | a user with the name is found exactly when some user has it |
| Handlers.ToUserOut | server_app_main.py:66 | `UserOut.model_validate(user)`: the id, username, role and active flag of the user row, and not its password hash |
| Handlers.CheckCredentials | server_app_main.py:47-51 | an unknown name and a wrong password both give 401 "Invalid credentials"; 403 "User inactive" only for the right password on an inactive account; success only for an active account with the right password |
| Handlers.CredentialsOfAccount | server_app_main.py:47-51 | with unique usernames, a wrong password gives 401 even for an inactive account; the right password gives 403 on an inactive account and the account itself on an active one |
| Handlers.LoginTokenAuthenticates | server_app_main.py:53-55 | the fresh token of a login authenticates as the user who logged in |
| Handlers.SessionsWithoutUser | server_app_main.py:71 | a session survives logout exactly when it belongs to another user |
| Handlers.LoggedOutUserCannotAuthenticate | server_app_main.py:70-71 | after logout, no token at all authenticates as that user |
| Handlers.DocumentList | server_app_main.py:96-98 | exactly the manufacturer's documents are listed |
| Handlers.DocumentListNewestFirst | server_app_main.py:97 | the listed documents are in strictly decreasing upload time |
| Handlers.SectionList | server_app_main.py:252 | exactly the document's sections are listed |
| Handlers.SectionListInOrder | server_app_main.py:252 | the listed sections are in increasing `order_index` |
| Handlers.FigureList | server_app_main.py:272 | exactly the figures linked to the section are listed |
| Handlers.FigureListInOrder | server_app_main.py:272 | the listed figures are in increasing `order_index` |
| Handlers.AuditPage | server_app_main.py:306 | at most 200 rows, taken newest first |
| Handlers.AuditPageNewestFirst | server_app_main.py:306 | the page is in strictly decreasing time, and every row left off is older than every row shown |
| Handlers.FindDocument | server_app_main.py:201 | a document with the id is found exactly when one exists, and the position returned holds it |
| Handlers.Revise | server_app_main.py:204-209 | title, revision date and tags take the value sent when it is non-empty and are kept otherwise; no other column changes |
| Handlers.Supplied | server_app_main.py:204 | `if title:` and its siblings: the field was sent and is not the empty string |
| Handlers.IsPdfFilenameIff | server_app_main.py:122 | a name passes exactly when it ends in a dot and `pdf`, in any case |
| Handlers.IsPdfFilename | server_app_main.py:122 | `file.filename.lower().endswith(".pdf")`; `IsPdfFilenameIff` states which names pass |
| Handlers.UpperCasePdfAccepted | server_app_main.py:122 | `REPORT.PDF` is accepted |
| Handlers.InnerPdfRefused | server_app_main.py:122 | `report.pdf.txt` is refused |
| Handlers.LinkSection | server_app_main.py:163-165 | a figure gets a section id exactly when its section index is present and below the number of section rows, and then it is that row's id |
| Handlers.SectionRow | server_app_main.py:149-156 | `Section(...)`: a parsed section stored under the new document with its heading, level, pages and `order_index` as parsed |
| Handlers.FigureRow | server_app_main.py:167-174 | `Figure(...)`: a parsed figure stored under the new document with its linked section, page, caption and `order_index`, and no image key |
| Handlers.SectionRows | server_app_main.py:146-157 | one section row per parsed section, with ids counted up from the first fresh id; `SectionRowsAt` and `SectionRowsFresh` state the rows |
| Handlers.FigureRows | server_app_main.py:161-175 | one figure row per parsed figure, with ids counted up after the section rows; `FigureRowsAt` and `FigureRowsFresh` state the rows |
| Handlers.SectionRowsAt | server_app_main.py:146-157 | section row `i` stores parsed section `i` with the document's id and the `i`-th fresh id |
| Handlers.FigureRowsAt | server_app_main.py:161-175 | figure row `i` stores parsed figure `i` with the document's id, the `i`-th fresh id and its linked section |
| Handlers.FigureRowLinksOwnSection | server_app_main.py:161-175 | with indexes in range, a figure row has a section exactly when its parsed figure has an index, and that section is a new row of the same document |
| Handlers.UploadLinksIndexedFigures | server_app_main.py:132-175 | for any pages, each stored figure is linked exactly when the parser gave it a section index, and always to a section of its own document |
| Handlers.AuditKeepsConsistent | server_app_main.py:99-108 | an audit row for an existing user keeps every table constraint |
| Handlers.Audit | server_app_main.py:99-108 | the audit row every successful handler commits: the acting user and role, the action, its targets and metadata, the next id and the current time, after which the clock advances |
| Handlers.Stored | server_app_main.py:134-176 | the rows `upload_document` adds: the document, then its section rows, then its figure rows, the id counter moved past them |
| Handlers.Uploaded | server_app_main.py:132-176 | `Stored` with the rows that the parsed content yields, numbered after the document row |
| Handlers.SessionAddedKeepsConsistent | server_app_main.py:53-55 | a session with a fresh token for an existing user keeps every table constraint |
| Handlers.SessionsRemovedKeepConsistent | server_app_main.py:71 | removing a user's sessions keeps every table constraint |
| Handlers.RevisedKeepsConsistent | server_app_main.py:204-209 | changing the fields of one document in place keeps every table constraint |
| Handlers.DeletedKeepsConsistent | server_app_main.py:233 | the delete cascade keeps every table constraint |
| Handlers.SectionRowsFresh | server_app_main.py:146-157 | the new section rows belong to the new document, have fresh increasing ids and increasing `order_index` |
| Handlers.FigureRowsFresh | server_app_main.py:161-175 | the new figure rows belong to the new document, have fresh increasing ids and increasing `order_index`, and point only at its new sections |
| Handlers.UploadRowsWellFormed | server_app_main.py:134-176 | the document row and its parsed rows keep the document, section and figure constraints |
| Handlers.UploadKeepsConsistent | server_app_main.py:178-188 | with those rows well formed, the upload's audit row keeps every table constraint |
| Handlers.Store.constructor | server/app/models.py:11-103 | an empty database satisfies every table constraint |
| Handlers.Store.Record | server_app_main.py:99-108 | one audit row for the user, with the next id and the current time; the constraints still hold |
| Handlers.Store.Login | server_app_main.py:45-66 | a credential failure is returned and changes nothing; a token that some session already holds is a 500 and changes nothing; on success exactly one session and one `LOGIN` row are added, the other sessions are kept, and the token and user are returned |
| Handlers.Store.Logout | server_app_main.py:69-82 | an authentication failure changes nothing; otherwise every session of the caller's user is removed and one `LOGOUT` row is added |
| Handlers.Store.ListDocuments | server_app_main.py:90-109 | an authentication failure changes nothing; otherwise the manufacturer's documents, newest first, and one `VIEW_DOC_LIST` row whose count is the number returned |
| Handlers.Store.ListSections | server_app_main.py:246-263 | an authentication failure changes nothing; otherwise the document's sections and one `VIEW_SECTION_LIST` row whose count is the number returned |
| Handlers.Store.ListFigures | server_app_main.py:266-283 | an authentication failure changes nothing; otherwise the section's figures and one `VIEW_SECTION` row whose count is the number returned |
| Handlers.Store.SearchTool | server_app_main.py:310-326 | an authentication failure changes nothing; otherwise the results and one `SEARCH_TOOL` row with the query and the result count |
| Handlers.Store.UpdateDocument | server_app_main.py:192-221 | 401 or 403 before 404, and an error changes nothing; otherwise only that document is revised and one `UPDATE_DOC` row is added |
| Handlers.Store.DeleteDocument | server_app_main.py:224-243 | 401 or 403 before 404, and an error changes nothing; otherwise the document goes with its sections and figures, and one `DELETE_DOC` row is added |
| Handlers.Store.BuildSectionRows | server_app_main.py:146-157 | the section loop builds exactly the section rows of the specification |
| Handlers.Store.BuildFigureRows | server_app_main.py:161-175 | the figure loop builds exactly the linked figure rows of the specification |
| Handlers.Store.StoreParsed | server_app_main.py:134-188 | the document, its sections, its figures and the `UPLOAD_DOC` row with their counts are added; the constraints still hold |
| Handlers.Store.UploadDocument | server_app_main.py:112-189 | 401 or 403 first, then 400 "Only PDF files allowed" for a name not ending in `.pdf` in any case, and an error changes nothing; otherwise the parsed document is stored and recorded |
| Handlers.Store.ListAuditLogs | server_app_main.py:301-307 | admins only, with 401 before 403; the newest 200 rows, newest first; nothing is written |
| Seed.Seeded | server_app_seed.py:9-36 | after seeding, both tables are non-empty; a non-empty table is unchanged; an empty one gets 3 manufacturers or 2 users; every other table is unchanged |
| Seed.SeedManufacturers | server_app_seed.py:10-17 | Boeing, Airbus and Other with their two theme colours each |
| Seed.SeedUsers | server_app_seed.py:19-35 | the active `admin` account with role admin and the active `user` account with role user, with the given password hashes |
| Seed.SeedTablesIndependent | server_app_seed.py:10-19 | each table is filled according to its own emptiness, whatever the other table holds |
| Seed.SeedIdempotent | server_app_seed.py:10-19 | seeding a second time changes nothing |
| Seed.SeedKeepsConsistent | server_app_seed.py:9-36 | seeding keeps every table constraint |
| Seed.SeededAccountsLogIn | server_app_seed.py:19-35 | on an empty users table, `admin`/`admin123` logs in as an admin and `user`/`user123` as a user, given the hashes of these passwords |
| Seed.SeedData | server_app_seed.py:9-36 | `seed_data` leaves exactly the seeded tables, and the constraints still hold |

## Left out

- Reading the upload into a temporary file, copying it under `server/storage`, and creating directories are I/O and not modelled.
- PyPDF2's text extraction and `splitlines()` are not modelled. `UploadDocument` takes each page's lines as `pages`.
- bcrypt (`hash_password`, `verify_password`) is not modelled. Verification is a parameter, and the hashes that seeding stores are inputs.
- `create_token` (`secrets.token_urlsafe`) is not modelled. The token is an input of `Login`. When it is already held by a session, the model answers the 500 that the unique constraint raises at commit.
- `\s`, `\d`, `\w`, `strip()`, `lower()` and IGNORECASE are restricted to ASCII. On ASCII they agree with Python: whitespace is the space, tab, line feed, vertical tab, form feed, carriage return and the separators 0x1C to 0x1F. Python's versions also treat non-ASCII characters as whitespace, digits, word characters or letters; the model does not.
- In the heading regex, `$` can also match just before a final newline. The model leaves that case out: lines from `splitlines()` hold no line break, and a final newline would be stripped anyway. So `.+` must match to the end of the line.
- `datetime.utcnow()` becomes an abstract clock that advances once per committed request. Two requests never share a time, so "newest first" has no ties in the model.
- Primary keys come from one counter shared by all tables. The database numbers each table on its own. Only freshness and increase are used.
- `metadata_json` is a datatype with one shape per handler, not a JSON string.
- Dafny's `Option<nat>` holds a figure's `section_index`. Python would accept a negative index, but the parser never produces one.
- The foreign keys from a document to its manufacturer and uploader are not checked as table constraints. The handlers do not check them either, and `DocumentsWellFormed` does not include them.
- `list_manufacturers`, `get_document_pdf`, `/health`, the `/app` entry page, the static mount and `on_startup` are not modelled. They are reads or file serving with no rule to state.
- The scraping in `server_app_search_tool.py` is not part of this model. Its results are an input of `SearchTool`.
- Schemas are not modelled beyond the login response. Only the `UserOut` projection without the password hash is kept.
- SQLAlchemy flush and commit semantics and concurrent requests are not modelled. Each handler is one atomic step.
- Exceptions from the PDF library on a corrupt file are not modelled.
