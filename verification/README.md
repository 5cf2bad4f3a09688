# Mimeographer: a verified model

Mimeographer is a small publishing server in C++. It streams static files and
uploads, renders Markdown articles as HTML, and lets logged-in users edit
articles, upload files and manage passwords. This project models the parts of it
where the behaviour is hard to see in any one function, and proves what they keep.

`dafny verify dfyconfig.toml` checks everything.

**The file streamer** (`StaticStream.dfy`, `StaticHandler.dfy`). The event thread
and the CPU thread of `StaticHandler` share four fields and a FIFO callback queue.
`StaticStream` is the transition system of all their interleavings: the two loop
tests of `readFile`, its read, the reset of `file_` and each post are separate steps.
Its theorems hold for every legal run. They rest on an invariant: what has been
delivered, what is queued and what the reader holds, joined in that order, is always
the file up to the read offset. The class `StaticHandler` has the source's fields and
methods, and each method is proved to take exactly one step of that system;
`ReadFile` lets the event thread run before each of its accesses.

**Pages** (`Markdown.dfy`, `RenderArticle.dfy`, `SummaryBuilder.dfy`, `Numbers.dfy`,
`Headlines.dfy`, `Response.dfy`). `renderArticle` and `SummaryBuilder` are flat loops
over cmark's event stream; each is proved equal to a recursion on the tree. The page
is well nested for every tree. It is *not* always the intended one: `inItem` is one
boolean, so a paragraph that follows a completed nested item in its own item gets
`<p>` tags. `PageIsIntended` says that the page is the intended one if and only if the
tree has no such paragraph, and that the page has one `<p>` inside an item for each;
`StrayHappens` gives a page on which it goes wrong. The `PageOf` lemmas say what each
kind of node gives in bytes. The response is folly's circular chain, and the three flush
loops append to it whatever capacity the string class reports.

**Sessions, keys and passwords** (`Sessions.dfy`, `SessionSafety.dfy`,
`SessionExpiry.dfy`, `Credentials.dfy`, `EmptyKey.dfy`, `DBConn.dfy`, `Handlers.dfy`). The four tables
are maps with the keys of the schema, each `DBConn` call is one atomic step, and any
number of requests interleave. Every run keeps a log of what its calls did, and the
theorems say what must stand in the log before an entry can, and which password an
accepted one must match. Any call may throw `DBError`. One session may carry several users, and a lookup may return any of them.
`Handlers` has the source's classes; its methods run with arbitrary steps of other
requests before each of their database calls. Every method of `DBConn` and every
handler leaves a world reached by a legal run from the one it met, so the theorems on
runs hold of it, and calls can be chained.

Where the code does less than one might expect, the model follows the code:

- `verifyCSRFKey("")` is true while the pair is logged in and no key has been
  stored, because a null key reads back as the empty string (`VerifyEmptyKey`); a
  request that presents it then writes its article (`EmptyKeyWrites`).
- A lookup that throws leaves the client's own id in place, and the id is then stored
  (`FaultStoresClientId`). `StoredIdsIssuedIff` says exactly when all stored ids are
  ones the server issued: when every id saved by a request with no answered lookup is.
- Two start-ups of one id that overlap can revive it after it was found expired
  (`OverlapRevives`). `LiveAgainIff` says exactly when: an id found expired is found
  live again if and only if some request saved it in between and within the hour;
  `RevivingSave` says that the first such request had made its lookup before the
  expiry was found, or had no lookup answered; and `RevivableIff` that, while no lookup
  throws, an expired id can be revived if and only if a request is past its lookup with it.
- A new user whose email belongs to an inactive user is not refused by
  `createLogin`: the insert throws (`Handlers.UserHandler.CreateLogin`,
  `InactiveDuplicate`).
- An update of an article that is not there writes nothing and still answers
  "Article updated" (`Handlers.EditHandler.StoreArticle`).
- An aborted upload leaves its partial file on the disk, with what had been
  received; only the parameter is dropped (`AbortedFileAbsent`).
- `parsePath` also takes a blank or a sign before one hex digit as an escape, because
  `stoi` does (`PathCodec.Stoi`).

**Text in place** (`PathCodec.dfy`, `Cookies.dfy`, `Uploads.dfy`). Percent encoding
and its decoder, `parseCookies` as two nested `strtok_r` scans that write NULs into one
buffer, and the upload callbacks with the way back from the path shown to the file stored.

## Model

| member | source | states |
|---|---|---|
| StaticStream.DeliveryIsInOrder | src/StaticHandler.cpp:34-96 | in every interleaving the client gets the headers and then a prefix of the file in order; end of message or abort comes last, and end of message only when the body is the whole file |
| StaticStream.OneReaderAtATime | src/StaticHandler.cpp:83-113 | readFileScheduled_ holds exactly while one reader is queued, running or about to be reported ended; never two, and the event thread never uses file_ beside one |
| StaticStream.DeletedOnceAndLast | src/StaticHandler.cpp:98-113 | the object is deleted at most once, exactly when finished with no reader in flight, and then no callback is queued, no step is possible and none has touched it afterwards |
| StaticStream.NoLostWakeup | src/StaticHandler.cpp:258-289 | a file that is open and not paused always has a reader in flight |
| StaticStream.QuietRunsEnd | src/StaticHandler.cpp:39-93 | with the server quiet every step of the reader or the queue lowers a measure, so no such run is longer than it |
| StaticStream.QuietGoesOn | src/StaticHandler.cpp:83-93 | a quiet step is possible exactly while a reader or a callback is left |
| StaticStream.QuietOutcome | src/StaticHandler.cpp:39-93 | where quiet runs end: deleted, whole file sent, aborted, paused with the file open, or nothing accepted |
| StaticStream.FlagsMean | src/StaticHandler.cpp:258-300 | a transfer is completed exactly when the server has called requestComplete or onError, and until then paused exactly when the last egress callback was a pause |
| StaticStream.AnswerOfRequest | src/StaticHandler.cpp:115-256 | an accepted request is answered with the headers first, a refused one with the whole refusal alone, and nothing is sent without one |
| StaticStream.RestOutcome | src/StaticHandler.cpp:34-96 | a run at rest with an accepted, uncompleted request and no standing pause has aborted or has sent the whole file and its end; the latter when no read failed |
| StaticStream.RestDeletes | src/StaticHandler.cpp:291-300 | a run at rest whose request is completed has deleted the object |
| StaticStream.AbortMeansFailure | src/StaticHandler.cpp:44-56 | the client is told of an abort only when a read has failed |
| StaticStream.PauseStopsReading | src/StaticHandler.cpp:258-267 | after a pause or the completion, with no resume since, the reader reads at most once more |
| StaticStream.StepInv | src/StaticHandler.cpp:34-300 | every step of either thread keeps the invariant that links fields, readers, queue and stream |
| StaticStream.RunInv | src/StaticHandler.cpp:34-300 | so does every run |
| StaticStream.ReaderGain | src/StaticHandler.cpp:39-81 | a reader step adds to the stream exactly the bytes it reads, or the end it finds, and posting adds nothing |
| StaticHandlers.StaticHandler.CheckForCompletion | src/StaticHandler.cpp:98-113 | deletes exactly as the transition system does |
| StaticHandlers.StaticHandler.OnRequest | src/StaticHandler.cpp:240-256 | takes the request step: headers and a scheduled reader, or a whole refusal |
| StaticHandlers.StaticHandler.OnEgressPaused | src/StaticHandler.cpp:258-267 | takes the pause step |
| StaticHandlers.StaticHandler.OnEgressResumed | src/StaticHandler.cpp:269-289 | takes the resume step, restarting the reader only if none is in flight |
| StaticHandlers.StaticHandler.RequestComplete | src/StaticHandler.cpp:291-300 | takes the completion step, which may delete |
| StaticHandlers.StaticHandler.RunQueued | src/StaticHandler.cpp:83-93 | takes the step of the callback at the head of the queue, the reader's last one included |
| StaticHandlers.StaticHandler.Turn | src/StaticHandler.cpp:39-81 | one turn of the loop is a legal run, and moves the offset when the loop goes on |
| StaticHandlers.StaticHandler.ReadFile | src/StaticHandler.cpp:34-96 | terminates whatever the event thread does meanwhile, and is a legal run at whose end no reader is left and its end callback is the last in the queue |
| PathCodec.UrlEncode | src/DBConn.cpp:30-52 | the loop computes the encoding |
| PathCodec.ParsePath | src/StaticHandler.cpp:302-351 | the loop computes the decoding, or the error |
| PathCodec.RoundTrip | src/StaticHandler.cpp:302-351 | decoding an encoded byte string gives it back, and the encoding meets the decoder's precondition |
| PathCodec.EncodeInjective | src/DBConn.cpp:30-52 | equal encodings exactly for equal strings |
| PathCodec.EncodeIsCanonical | src/DBConn.cpp:30-52 | the output has only unreserved characters and two-digit upper-case escapes of others (sections 2.1 and 2.3 of RFC 3986) |
| PathCodec.CanonicalRoundTrip | src/StaticHandler.cpp:302-351 | every such path is an encoding and decodes to what it encodes |
| PathCodec.DecodeConcat | src/StaticHandler.cpp:302-351 | decoding goes piece by piece |
| PathCodec.EverySpelling | src/StaticHandler.cpp:302-351 | two hex digits in either case decode to the byte they write; a blank or a sign and one digit to that digit or its negative |
| PathCodec.LoweredDecodes | src/StaticHandler.cpp:302-351 | the case of the hex digits of a path does not matter |
| PathCodec.DecodeMeans | src/StaticHandler.cpp:302-351 | what a character, a plus (as %20) and an escape decode to, in front of any path |
| PathCodec.DecodeErrsIff | src/StaticHandler.cpp:302-351 | decoding fails, with 400, exactly when the scan reaches an escape that is neither two hex digits nor a blank or a sign and one |
| PathCodec.EncodeMeans | src/DBConn.cpp:30-52 | which bytes the encoder leaves, and what it writes for the others |
| Cookies.StrtokR | src/HandlerBase.cpp:168-186 | one strtok_r call finds the first token of the pure split, ends it, leaves the rest to be split, and changes nothing outside the string |
| Cookies.StoreField | src/HandlerBase.cpp:173-182 | the inner scan stores the first two parts and writes only inside its own field |
| Cookies.CookieJar.ParseCookies | src/HandlerBase.cpp:168-186 | the nested scans in place store what the pure split stores, field after field |
| Cookies.CookieJar.AddCookie | include/HandlerBase.h:150-153 | the jar gets the value under the name |
| Cookies.PrintParses | src/HandlerBase.cpp:168-186 | a printed list of pairs parses to those pairs put in order, the last duplicate winning |
| Cookies.CookieRoundTrip | src/HandlerBase.cpp:168-186 | a map of non-empty, delimiter-free names and values printed in any order (section 4.2.1 of RFC 6265) parses back to itself |
| Cookies.LastFieldWins | src/HandlerBase.cpp:173-182 | of two fields with one name the last is kept, and a third part of a field dropped |
| Response.PrependChain | include/HandlerBase.h:122-138 | prependChain on a circular list appends: the rings join in order |
| Response.ResponseChain.PrependResponse | include/HandlerBase.h:122-138 | the body grows by the data at its end |
| Response.ResponseChain.Buffer | src/PrimaryHandler.cpp:249-260 | whatever the spare capacity, body and pending text together grow by the chunk |
| RenderArticle.RenderEvents | src/PrimaryHandler.cpp:58-265 | the loop appends the tokens of all events, wherever it flushes |
| RenderArticle.RenderArticle | src/PrimaryHandler.cpp:36-268 | for every well-formed tree the page is that of the recursive renderer |
| RenderArticle.LoopIsRecursion | src/PrimaryHandler.cpp:58-247 | the flat event loop emits what a recursion that threads the flag emits, and leaves the flag as it does |
| RenderArticle.FlagMeans | src/PrimaryHandler.cpp:104-109 | the flag is set exactly when the last item event was an enter |
| RenderArticle.PageNests | src/PrimaryHandler.cpp:58-247 | every open tag meets its own close tag, `<p>` included |
| RenderArticle.StrayTags | src/PrimaryHandler.cpp:78-87 | below any node, how far the rendered tokens are from the intended ones: one pair of paragraph tags for each paragraph after a completed nested item |
| RenderArticle.PageIsIntended | src/PrimaryHandler.cpp:78-87 | the page is the intended one if and only if no paragraph follows a completed nested item in its own item; otherwise it has one `<p>` inside an item for each |
| RenderArticle.IntendedKeepsItemsPlain | src/PrimaryHandler.cpp:78-87 | the intended page has no `<p>` inside an item |
| RenderArticle.StrayAfterBlock | src/PrimaryHandler.cpp:104-109 | an item with a block that holds an item and then a paragraph is such a case |
| RenderArticle.StrayHappens | src/PrimaryHandler.cpp:78-87 | for any two texts, a document of two nested bullet lists whose page differs from the intended one |
| RenderArticle.PageOfSiblings | src/PrimaryHandler.cpp:58-262 | the page of siblings is that of one after another, the flag ended by a completed item |
| RenderArticle.PageOfBlocks | src/PrimaryHandler.cpp:65-114 | the bytes around a paragraph, an item, a block quote and a document |
| RenderArticle.PageOfLists | src/PrimaryHandler.cpp:87-102 | the bytes around bullet and ordered lists |
| RenderArticle.PageOfHeading | src/PrimaryHandler.cpp:74-77 | the bytes around a heading of each level |
| RenderArticle.PageOfInlines | src/PrimaryHandler.cpp:168-175 | the bytes around emphasis |
| RenderArticle.PageOfLinks | src/PrimaryHandler.cpp:112-136 | the bytes of links and images, with and without a title |
| RenderArticle.PageOfLiterals | src/PrimaryHandler.cpp:149-160 | text and raw HTML stand as they are |
| RenderArticle.PageOfCode | src/PrimaryHandler.cpp:133-148 | the bytes of code and code blocks |
| RenderArticle.PageOfBreaks | src/PrimaryHandler.cpp:161-180 | the bytes of breaks |
| RenderArticle.TextStands | src/PrimaryHandler.cpp:157-160 | each text run stands in the page between what the events before and after it give |
| Headlines.BuildArchive | src/PrimaryHandler.cpp:277-305 | the page lists every headline once and in order |
| Headlines.BuildEditSelect | src/EditHandler.cpp:182-211 | so does the edit list |
| Headlines.LinesMean | src/PrimaryHandler.cpp:281-301 | the bytes of one headline in both lists, and which field stands where |
| Summaries.SummaryBuilder.BuildTitle | src/SummaryBuilder.cpp:31-67 | collects the text runs up to the end of the heading, and refuses an empty title |
| Summaries.SummaryBuilder.BuildPreview | src/SummaryBuilder.cpp:69-108 | stopping early never changes the result: the text up to the end of the paragraph, or exactly its first 256 bytes if it is longer |
| Summaries.SummaryBuilder.Build | src/SummaryBuilder.cpp:110-170 | title is the text of the leading heading, preview that of the first paragraph after it, cut to exactly 256 bytes if longer, with every error case |
| Summaries.LocateParagraphIn | src/SummaryBuilder.cpp:110-170 | the first paragraph event of the stream is that of the first paragraph of the tree |
| Summaries.WalkersAgree | src/PrimaryHandler.cpp:190-193 | the title is the text renderArticle emits between its first heading tag and the close tag that meets it |
| Summaries.TitleAtHead | src/PrimaryHandler.cpp:74-77 | the page of a document that starts with a heading of plain text starts with the title between the tags of the heading |
| Numbers.DecimalIsRead | src/EditHandler.cpp:167-169 | a number written in decimal is read back as itself |
| Numbers.NumberIsWritten | src/DBConn.cpp:428-447 | a text of digits with no zero in front is the number it is read as, written in decimal |
| Numbers.NumberConcat | src/DBConn.cpp:428-447 | the number of a text is that of its front, shifted, and of its rest |
| Uploads.PostBodyCallback.OnParam | src/HandlerBase.cpp:37-50 | the parameter is set |
| Uploads.PostBodyCallback.OnFileStart | src/HandlerBase.cpp:52-92 | the file is named, opened or refused, and its parameter set |
| Uploads.PostBodyCallback.OnFileData | src/HandlerBase.cpp:94-116 | the data is added to the open file, or the stream goes bad |
| Uploads.PostBodyCallback.OnFileEnd | src/HandlerBase.cpp:118-137 | the file is closed, or its parameter dropped |
| Uploads.PostBodyCallback.OnError | include/HandlerBase.h:103-107 | all parameters are dropped |
| Uploads.ReceiveFile | src/HandlerBase.cpp:52-137 | a completed file holds its chunks joined and nothing else moves |
| Uploads.UploadsStored | src/HandlerBase.cpp:37-137 | after any parts received whole, every file is stored whole under its own name, every name has its last part, and no other file or parameter has changed |
| Uploads.UploadOutcome | src/HandlerBase.cpp:37-137 | however a body ends (whole, broken off, malformed, a file not opened, a short write), what is on the disk and which parameters are left |
| Uploads.UploadsSurvive | src/HandlerBase.cpp:37-137 | however a body ends, the files received whole before stay stored whole and older files unchanged |
| Uploads.AbortedFileAbsent | src/HandlerBase.cpp:118-137 | an aborted file has no parameter; what had been received of it stays on the disk, and the files from before are unchanged |
| Uploads.DisplayPath | src/EditHandler.cpp:289-293 | the directory cut off can be put back to give the stored path, and a file stored by an upload is shown under /uploads/ by its UUID and name |
| Uploads.ShownPathLeadsBack | src/StaticHandler.cpp:160-192 | a URL that decodes to the path shown is mapped back to the stored file, up to one doubled slash, if and only if the name has no line break |
| Uploads.ShownPathHasUrl | src/EditHandler.cpp:289-293 | there is such a URL for every name |
| Uploads.MapPathMeans | src/StaticHandler.cpp:160-192 | where each kind of path is read from, the static files and the icon included, and that no other is |
| SessionSafety.AuthenticatedMeansLoggedIn | src/UserSession.cpp:35-85 | a request acts as u on s only if at its own lookup u had logged in on s, in a request that had a password for u accepted, had not logged out of s since, and s had been seen within the hour |
| SessionSafety.StepInv | src/DBConn.cpp:286-399 | every call of every request keeps tables and log matched and every log entry justified |
| SessionSafety.RunInv | src/DBConn.cpp:286-399 | so does every run |
| SessionSafety.RowMeans | src/DBConn.cpp:297-321 | the row of a pair is in the table exactly when some login of it has no logout after it |
| SessionSafety.RowKeyMeans | src/DBConn.cpp:359-374 | the row holds exactly the key stored last for the pair since that login, or null |
| SessionSafety.VerifyIsCurrentKey | src/UserSession.cpp:106-131 | for a non-empty key the check succeeds if and only if the key is the one stored last for the pair since its row was created |
| SessionSafety.VerifyEmptyKey | src/DBConn.cpp:376-399 | for the empty key, if and only if the row is there with no key yet |
| SessionSafety.KeyOfAnotherFails | src/UserSession.cpp:106-131 | in every run, a key stored for one user and session never passes the check of another |
| EmptyKey.EmptyKeyWrites | src/EditHandler.cpp:102-180 | from any start with an active user, a run in which a request that presents the empty key writes its article, although no key was ever stored |
| SessionSafety.EveryWriteWasChecked | src/EditHandler.cpp:102-180 | every article write follows, in the same request, a check that found the row present holding the value presented |
| SessionSafety.StaleCheckFails | src/UserSession.cpp:106-131 | a check after a logout with no new login fails |
| SessionSafety.StaleRequestWritesNothing | src/EditHandler.cpp:102-180 | a request that checks its key only after a logout of its user and session, with no login between the two, writes nothing |
| SessionSafety.ChangeNeedsOldPassword | src/UserHandler.cpp:230-274 | a password is set only in a request that had a password for that user accepted before |
| Credentials.AcceptedMeansRight | src/UserHandler.cpp:86-105 | in every run, just before a password was accepted for u it had, under the salt then stored for u, the hash of the password last set for u |
| Credentials.AuthenticatedGavePassword | src/UserHandler.cpp:138-180 | so a request acts as u only on a session whose login had such a password accepted |
| Credentials.ChangeGaveOldPassword | src/UserHandler.cpp:230-274 | and a password is set only in a request that had such an old one accepted before |
| SessionExpiry.StoredIdsIssuedIff | src/UserSession.cpp:35-85 | in every run, an id the server did not issue is stored if and only if a request with no answered lookup saved it; so all stored ids are issued if and only if all that such requests save are |
| SessionExpiry.StoredIdsAreIssued | src/UserSession.cpp:35-85 | an id none of whose lookups throws is stored only if the server issued it |
| SessionExpiry.LiveAgainIff | src/DBConn.cpp:323-357 | in every run, an id found missing or expired is found live later if and only if some request saved it in between, less than an hour before |
| SessionExpiry.LapsesUnseen | src/DBConn.cpp:323-357 | from any state, an hour in which no request saves an id ends with the id not live, whatever else runs |
| SessionExpiry.RevivingSave | src/UserSession.cpp:35-85 | in every run, the first request to save an id found expired had made its lookup before that, or has no answered lookup |
| SessionExpiry.ExpiredUntilRevived | src/UserSession.cpp:35-85 | an id found expired stays expired while every later save is by a request that looked up after that |
| SessionExpiry.RevivableIff | src/UserSession.cpp:35-85 | from any state, while no lookup of an expired id throws, some run makes it live again if and only if a request is past its lookup with it |
| SessionExpiry.ExpiredForGood | src/DBConn.cpp:323-357 | when no two start-ups of the id overlap and none of its lookups throws, an id found expired is never saved or found live again |
| SessionExpiry.KeptWithinTheHour | src/DBConn.cpp:286-295 | in such runs a request that saves an id again found it live less than an hour after the save before |
| SessionExpiry.FaultStoresClientId | src/UserSession.cpp:65-70 | from any start, one failed lookup stores an id the server never issued |
| SessionExpiry.OverlapRevives | src/UserSession.cpp:73-77 | from any start, overlapping start-ups can revive an id found expired |
| Credentials.CredentialsKept | src/UserHandler.cpp:40-84 | every run keeps each stored hash equal to that of a non-empty salt and the password last set, and emails unique, for any hash function |
| Credentials.LoginDecides | src/UserHandler.cpp:138-180 | after any run, a login that does not throw is accepted for u if and only if u is the active user of the email and the password has the hash of the one last set |
| Credentials.RightPasswordLogsIn | src/UserHandler.cpp:86-105 | so the password last set authenticates an active user |
| Credentials.UsersUntouched | src/DBConn.cpp:449-502 | a user's record changes only when a password is set for that user, so failed changes and duplicate emails change nobody's |
| Credentials.InactiveDuplicate | src/UserHandler.cpp:440-463 | an inactive user with the email is not seen by the look before, and whatever others do in between the insert then adds nothing |
| Database.DBConn.Perform | src/DBConn.cpp:83-108 | a call takes the step the protocol gives its request, after any legal run of the others; the world after is reached by a legal run from the world before |
| Database.DBConn.GetSessionInfo | src/DBConn.cpp:323-357 | the row found is one of the live session's, and the request goes on by it; when there is none, with a UUID not issued before |
| Database.DBConn.SaveSession | src/DBConn.cpp:286-295 | the session is stored as seen now, or the user is dropped |
| Database.DBConn.SaveCsrfKey | src/DBConn.cpp:359-374 | the row, if there, holds the new key |
| Database.DBConn.GetCsrfKey | src/DBConn.cpp:376-399 | the key the row holds, none without a row |
| Database.DBConn.SaveArticle | src/DBConn.cpp:401-426 | a row that was not there, with the given contents |
| Database.DBConn.UpdateArticle | src/DBConn.cpp:428-447 | the row of that number, if there, gets the contents |
| Database.DBConn.GetUserByEmail | src/DBConn.cpp:239-260 | the active user of the email, or none |
| Database.DBConn.GetUserById | src/DBConn.cpp:262-284 | the user if active |
| Database.DBConn.MapUuidToUser | src/DBConn.cpp:297-308 | the pair has a row, with the key it held for the pair before or none |
| Database.DBConn.UnmapUuidToUser | src/DBConn.cpp:310-321 | the pair has no row |
| Database.DBConn.SavePassword | src/DBConn.cpp:449-464 | the user, if there, has the hash and salt |
| Database.DBConn.AddUser | src/DBConn.cpp:486-502 | a new active user, the only one of that email; throws when any user had the email |
| Handlers.HandlerBase.OnRequest | src/HandlerBase.cpp:249-271 | start-up is that of the session cookie sent last, if any, in all its cases; an expired or unknown id is replaced by one not issued before; the answer carries the id it ends with |
| Handlers.StoreAllMeans | src/HandlerBase.cpp:250-256 | cookie headers are stored in order, each by its fields |
| Handlers.UserSession.InitSession | src/UserSession.cpp:35-85 | which id the request ends with and for which user, in each case of the lookup (one not issued before when nothing is found); what is stored; and the calls made |
| Handlers.UserSession.GenCsrfKey | src/UserSession.cpp:87-104 | throws without a user; otherwise the new key is the current one unless the pair was logged out |
| Handlers.UserSession.VerifyCsrfKey | src/UserSession.cpp:106-131 | true exactly for the key stored last since login, or for the empty one while there is none |
| Handlers.UserSession.LogoutUser | include/UserSession.h:98-102 | the pair is logged out and the user cleared, or neither |
| Handlers.EditHandler.StoreArticle | src/EditHandler.cpp:157-177 | what is inserted or updated, and what the page says |
| Handlers.EditHandler.ProcessSaveArticle | src/EditHandler.cpp:102-180 | the log entries of the request, the exception of each failed test in order, and the article written |
| Handlers.EditHandler.ProcessRequest | src/EditHandler.cpp:366-408 | without a user a redirect on every path and nothing else; with one, each path to its page or 404; a page for a saved article exactly with the check and the article written; no write when something is thrown |
| Handlers.RouteMeans | src/EditHandler.cpp:370-392 | the paths of the edit page, a new article and a saved one |
| Handlers.RouteOfArticle | src/EditHandler.cpp:393-394 | an article is edited on every path that starts with its prefix |
| Handlers.RouteOfUploads | src/EditHandler.cpp:395-398 | the paths of the uploads |
| Handlers.RefusalMeans | src/EditHandler.cpp:123-153 | which posts are refused once the key is accepted, in order |
| Handlers.ArticleMeans | src/EditHandler.cpp:156-176 | the fields of the article that is written |
| Handlers.UserHandler.ProcessLogin | src/UserHandler.cpp:138-180 | at a state between the states before and after, reached when the database was asked, the user is found exactly when the password has the hash of the one last set for the active user of the email; a redirect exactly when the session was then mapped, and the user is logged in on it |
| Handlers.UserHandler.ProcessLogout | src/UserHandler.cpp:182-188 | logs the pair out and redirects, or throws and changes nothing |
| Handlers.UserHandler.ChangeUserPassword | src/UserHandler.cpp:230-274 | at a state between the states before and after, reached when the database was asked, the old password is accepted exactly when it has the hash of the one last set and the user is active; true means the new one is stored, salted and hashed; false changes nothing |
| Handlers.UserHandler.CreateLogin | src/UserHandler.cpp:440-463 | true exactly when a new active user with that password was added, alone of that email; false when an active user has it; throws when an inactive one does |

## Left out

- Logging, configuration, TLS, server start-up, prefix routing and fixed HTML forms: no hard property.
- The insides of libpq, proxygen, folly, cmark, OpenSSL and the UUID generator: a FIFO callback queue, the iterator's event order and fresh UUIDs are assumed; the hash is any function, with no freedom from collisions, and base64 is part of it.
- The Markdown parser: the tree is the input. Nodes are one datatype with a `WellFormed` predicate, which says what may stand under what; a list whose type is neither bullet nor ordered (the source throws) cannot be built.
- The multipart parser: only the order of callbacks it promises; after a callback that fails it reports the error and calls no other.
- Shared fields are read and written one at a time in one order for both threads; each event-thread callback is one step, as the event base runs one at a time.
- Real file I/O: a file is a byte sequence that does not change during a transfer, a disk is a map, and a failed close is not modelled.
- Inputs on which the C++ would read past its data: an escape with fewer than two characters after `%`, a cookie field without a name or a value, an empty `uploadDest`, chained upload buffers.
- Column lengths, malformed ids and numbers too large for a column: any of these is a database call that throws, which every call may do; a call that throws has changed nothing.
- Publish and save dates; the lists of headlines are inputs of the page loops.
- The form of `processUpload` and its key check, and the article read by `buildEditor`: the protocol has the upload callbacks apart, and a form as the action that stores a key.
- `findMimeType`, `makeMenuButtons`, `SiteTemplates`, header lists and directory listing: simple lookups.
- Handlers.EditHandler.ProcessRequest: the pages other than a saved article are only handed the request; what they do is not in its contract.
- Handlers.UserHandler.ProcessLogin: the form shown again is the outcome `Page`; its text is left out.
