# Motcert backend: a verified model

The service keeps calibration certificates and their PDF files on a Hyperledger Fabric
ledger and shows them in paged lists. This project models the parts of it that carry
state, loops and rules across functions, and proves what they keep:

* **The certificate lists.** The query printer (`Selectors`), a JSON reader written after
  RFC 8259 without regard to the printer (`Json`), what the printed text says when it is
  read back (`SelectorReading`), which documents it selects (`Filters`), conditions that hold
  escapes (`Escaping`), the newest-first pages of the store (`Paging`), the bookmark sweep while other clients keep committing
  (`Sweep`), exact pages, counts and query numbers while they do not (`Snapshots`), a sweep
  that never ends (`Ties`), and the list requests themselves (`Fabric`, `Lists`). `Stamps`
  says what the text order of dates means.
* **The certificate ledger.** The chaincode's two writes and the outcomes of a call (`Peer`);
  every ledger operation as the requests it sends to the peer, with any number of operations
  interleaved, failing, or timing out after the commit (`Workflow`); one operation at a time
  (`Sequential`). The methods of `Fabric.FabricSetup` carry the operations out against a
  changing ledger, and each is proved to do exactly what its chain of requests does.
* **The login sessions.** The session list as a value with its laws (`SessionModel`), login,
  logout and login test as visits (`LoginModel`), handles that outlive their sessions
  (`Handles`), the heap with its map, doubly linked list and handles (`Sessions`), and the
  request handlers (`Logins`). Every heap method is proved against the value, and against a
  move of the handles.

`Text` and `Records` hold the shared vocabulary. `dafny verify dfyconfig.toml` checks
everything.

## How the pieces fit

A call to the peer is one *turn* of a *schedule*: the commits of others that land before it,
its outcome (`Lost`, `Done`, or `TimedOut`, which for an execute means committed but
reported as failed), the clock of the peer, and the bookmark an empty page happens to carry.
Schedules are arbitrary, so a theorem about a schedule is about every interleaving. `Quiet`
and `Still` schedules are the undisturbed ones. `Honest` commits are those that the service's own
operations make, in any run; `Sweep.WithinRun` places a list request into such a run.

The store behind `queryList` is the set of stored certificates, sorted by update date and
then id, both descending; a bookmark means "strictly after this key".

Three facts are kept apart because the code keeps them apart: the *text* of a query
(`EditQueryString`), the *selector* it is read back as (`IntendedSelector`), and the
certificates that are *wanted* (`Wanted`). The first is the second exactly when the
conditions are plain, and the second is always the third. The order of a list is a fourth: the
sort clause of the text is interpreted key by key (`Filters.ComesBefore`), as the selector is.

## What the code does that one might not expect

* A condition with a quote, a backslash or a control character makes a text that is not the
  intended query, for every such condition
  (`SelectorReading.PrintedQuerySaysIntended` is an equivalence). If its backslashes are
  escapes that are in order, the text asks for the value these escapes stand for
  (`Escaping.PrintedQuerySaysMeant`).
* Conditions lose their blanks before they are printed, stored values do not. No plain
  condition finds a certificate type with a blank in it (`Filters.PlainlyFindable` says
  exactly which values plain conditions find), but a condition that spells the blank as an
  escape does: every value that is not empty can be asked for
  (`Escaping.EveryValueCanBeAskedFor`), and a query with all eight conditions escaped
  selects exactly what they say (`Escaping.EscapedQuerySelectsExactly`). Likewise a bound
  given as a full stamp silently becomes a bound on days (`Stamps.FullStampBounds`), unless
  its blank is escaped (`Escaping.EscapedStampBounds`).
* An end day is not included (`Filters.DayBoundsKeepDays`). The field comments call the two
  "create date" bounds dates of entry (app/business/certificateIO.go:67-68); the code compares
  the date of the last change, and the model follows the code.
* The "changed on chain" flag of a `ChangeStatus` entry can be wrong in three ways. An entry
  that `CertificateIn` turned down after a successful lookup is flagged, because that refusal
  carries no error; an entry whose write is committed but times out is not flagged; and an
  entry that the client sent with the flag set keeps it, written or not. There is no fourth
  way, under any schedule (`Sequential.WhenFlagMisleads`, `Sequential.ListHasEffects`).
* A certificate can be stored as not uploaded although its file is there, exactly when the
  lookup of its last write failed or came before the file:
  `Workflow.FlagExactUnlessLookupMissed` says so for every state of every run. One client can
  meet both alone. The lookup fails and the certificate is written all the same
  (`Workflow.LostLookupLosesUpload`); or the certificate was posted long ago and the upload
  does not get as far as writing it back (`Workflow.UnfinishedUploadLosesFlag`). With two
  clients the lookup can come just before the upload (`Workflow.StaleLookupLosesUpload`). The
  other direction is safe in every interleaving.
* The sweep asks for one more page as long as pages come back non-empty. It ends once stamps
  have moved past the dates it began with; while commits share one second with the listed
  records it may go on for ever (`Ties.EqualStampsNeverEnd`), though only if about one
  certificate is committed for every page (`Sweep.SweepIsBoundedByCommits`).
* The deleted and the draft list only ask for a login if the request does not claim
  `isOpen` itself (`Lists.ListRichQuery`).
* A logout destroys the session whose id is the *raw* cookie value, while the session it
  logs out goes by the unescaped one. It still logs its own session out
  (`LoginModel.LogoutLogsOut`), and it may log out another one
  (`LoginModel.RawCookieLogsOutAnother`). The rule "only logouts on a session, or collections
  of it, end its logins" holds exactly in the runs without such a hit
  (`LoginModel.OnlyOwnLogoutsUnlessRawHits`).

## Model

| member | source | states |
|---|---|---|
| Stamps.StampsKeepOrder | app/chaincode/main.go:106-116 | For the years 0 to 9999 the string order of stamps is the chronological order of moments, and equal stamps are the same second: the store's string sort is newest-first. |
| Stamps.StampIsReadBack | app/chaincode/main.go:106-116 | A stamp has the separators of "2006-01-02 15:04:05", and the digits of each field, read as a number, are that field of the moment. |
| Stamps.DayBounds | app/business/certificateIO.go:388-396 | A bound that is a day alone: "$gte" keeps exactly the stamps of that day or later, "$lte" exactly those of earlier days. |
| Stamps.FullStampBounds | app/business/certificateIO.go:388-396 | A bound that is a full stamp loses its blank, so its time of day no longer counts: "$gte" keeps exactly later days, "$lte" that day and earlier. |
| Json.OnlyPlainCharsAreKept | app/business/certificateIO.go:378-396 | Whatever text follows, a quoted value that is not plain is never read back as itself; what is read is shorter or ends in text that stood outside the quotes. |
| Selectors.PrintedIsJoined | app/business/certificateIO.go:361-376 | Appending condition after condition, blank ones adding nothing, amounts to a head, the conjunct texts joined by commas, and a tail. |
| Text.StripDropsBlanks | app/business/certificateIO.go:378-380 | Letter by letter, a condition loses its blanks and line feeds, and any other letter stays where it is. |
| Selectors.PrintedLetterByLetter | app/business/certificateIO.go:345-396 | The whole printed text of each list, spelled out in letters: the beginning of its list, each condition that is not blank with its field name and operator, and the sort and index clauses. |
| SelectorReading.PrintedQuerySaysIntended | app/business/certificateIO.go:345-396 | Read back as JSON, the printed text is the intended query (base conjuncts, one conjunct per non-blank condition, sort, index) if and only if no stripped condition holds a quote, backslash or control character. |
| Filters.IntendedSelectorMeansWanted | app/business/certificateIO.go:340-430 | The intended selector, evaluated on any certificate's document, equals the direct filter: the list's flags, four equalities, four bounds. |
| Filters.PrintedQuerySelectsWanted | app/business/certificateIO.go:361-396 | For plain conditions, the text as printed selects exactly the wanted certificates, in the order of the index. |
| Filters.FilesAreNeverSelected | app/business/certificateIO.go:345-419 | No stored file document can match the selector of any of the three lists. |
| Filters.DayBoundsKeepDays | app/business/certificateIO.go:368-369 | Day bounds on the update date keep, of what the list holds without them, exactly what was stamped on or after the start day and before the end day. |
| Filters.PlainlyFindable | app/business/certificateIO.go:378-386 | Some plain equality condition finds a stored value if and only if the value is not empty, holds neither blank nor line feed and is plain; then it is found by itself. |
| Escaping.EscapedIsRead | app/business/certificateIO.go:378-396 | For every value, the text with its blanks, control characters, quotes and backslashes escaped survives stripping, and between the printed quotes it is read back as the value. |
| Escaping.PrintedQuerySaysMeant | app/business/certificateIO.go:345-396 | Whenever each stripped condition is a text for some value, escaped or not, the printed query is read back as the query for these values. |
| Escaping.EscapedQuerySelectsExactly | app/business/certificateIO.go:361-396 | For all eight values whatever, the query printed from their escaped forms selects exactly the list's certificates that meet them, nothing stripped. |
| Escaping.EveryValueCanBeAskedFor | app/business/certificateIO.go:378-386 | Some condition is read as a given value if and only if the value is not empty. |
| Escaping.EscapedStampBounds | app/business/certificateIO.go:388-396 | Full stamps as escaped bounds on the update date keep their time of day: exactly what was stamped from the first to the last second is left. |
| Escaping.LegibleSelectsFromList | app/business/certificateIO.go:340-430 | A query whose conditions are plain or properly escaped is understood, and whatever it selects belongs to its list. |
| Escaping.LegibleAsksNewestFirst | app/business/certificateIO.go:373 | The sort clause of such a query, read key by key, puts one certificate before another exactly if it has the later update date, or the same date and the larger id. |
| Peer.CommitsGrow | app/chaincode/main.go:84-185 | No commit removes a certificate or a file. |
| Workflow.AdvanceKeepsSound | app/business/certificateIO.go:84-335 | Every single request of every operation, with every outcome, keeps the ledger sound (own id, full stamp, open or uploaded implies file) and what waiting operations know about it. |
| Workflow.EveryRunIsSound | app/business/certificateIO.go:84-335 | In every state of every interleaved run with failures and late time-outs: open or uploaded certificates have their file, dates are 19 characters long so no slice crashes, nothing stored is lost. |
| Workflow.EveryDateIsAStamp | app/chaincode/main.go:106-122 | In every state of every run each stored date is the stamp of a moment, although truncated dates are written back. |
| Workflow.StoredIsLastWrite | app/chaincode/main.go:84-132 | In every state of every run a stored certificate is what its last committed write carried, announced or timed out, with the stamp of that write. |
| Workflow.EveryWriteHasOrigin | app/business/certificateIO.go:84-335 | In every run whatever is on its way to the ledger is, but for the upload flag and the date, the certificate its client posted, or the certificate as its upload has read it, or as its status change has read it with the three flags of the entry. |
| Workflow.StoredFileIsLastSent | app/chaincode/main.go:153-185 | In every state of every run a stored file is the file of the last committed upload for its id, as the client sent it; an earlier one is replaced. |
| Workflow.RunsCommitHonestly | app/business/certificateIO.go:84-335 | Any stretch of any run is a sequence of commits that leads from its first ledger to its last, each writing "uploaded" only where the file is stored and "open" only with "uploaded". |
| Workflow.AdvanceKeepsFlagUnless | app/business/certificateIO.go:95-121 | One request leaves an exact upload flag exact if and only if it is neither the committed write of a certificate as not uploaded while its file is stored, nor the first file of a stored certificate. |
| Workflow.FlagTellsLookup | app/business/certificateIO.go:95-121 | In every state of every run a stored certificate has a last write and this write a lookup, and the flag is true if and only if that lookup succeeded and found the file in the ledger it met. |
| Workflow.FlagExactUnlessLookupMissed | app/business/certificateIO.go:95-121 | So in every state of every run the flag is exact if and only if that lookup found the file or no file is stored: it is wrong just when the lookup failed or came before the file. |
| Workflow.StaleLookupLosesUpload | app/business/certificateIO.go:95-126 | A lookup that came before the file, with two clients, for any unopened certificate and file of one id: the lookup just before the upload, the write after it. |
| Workflow.LostLookupLosesUpload | app/business/certificateIO.go:98-99 | A lookup that failed, with one client and nothing interleaved: it comes after the upload, and the certificate is written all the same. |
| Workflow.UnfinishedUploadLosesFlag | app/business/certificateIO.go:206-227 | A lookup that came before the file, with one client and nothing interleaved: the certificate was posted earlier, and the upload's commit times out or its read of the certificate fails, so nothing is written back. |
| Sequential.DriveReturns | app/business/certificateIO.go:84-127 | Under every schedule a CertificateIn started by a client, an upload or a status change asks and writes the same, and its caller goes on from the same reply. |
| Sequential.CertificateInRuns | app/business/certificateIO.go:84-127 | Under every schedule, what a CertificateIn comes to in terms of the ledgers it meets: refused with 400 exactly if open and its file not got, with an error only if the lookup failed; otherwise the client's certificate is stored with nothing changed but flag and date, and the reply is 200, or 501 if the commit is lost or times out. |
| Sequential.UploadRuns | app/business/certificateIO.go:197-234 | Under every schedule, what an upload comes to: ledger, calls, code and error for each outcome of its four requests; what is written back is the certificate as it was read with nothing changed but flag and date. |
| Sequential.QuietUploadChangesOnlyFlag | app/business/certificateIO.go:206-227 | Undisturbed, an upload stores its file, leaves every other certificate and file alone, and of its own certificate changes nothing but the upload flag, to true, and the date. |
| Sequential.QuietDriveKeepsFlags | app/business/certificateIO.go:84-335 | Undisturbed, any operation ends with a reply, without a crash, and with every upload flag true exactly when the file is stored. |
| Sequential.QuietRunsKeepFlagsExact | app/business/certificateIO.go:98-226 | After any sequence of undisturbed operations every certificate says "uploaded" if and only if its file is stored, whatever clients sent. |
| Sequential.ListHasEffects | app/business/certificateIO.go:301-338 | Under every schedule ChangeStatus leaves the ledger, the reply and the call number that its entries' effects lead to one after the other: an entry seen and not refused is written as it was read over what others committed since, also when the write times out. |
| Sequential.WhenFlagMisleads | app/business/certificateIO.go:314-334 | When an entry is written and when it is flagged, as equivalences, and that the flag in the reply is wrong exactly for a refusal after a successful lookup, a write that times out unflagged, and a flag the client set on what is not written. |
| Sequential.QuietListIsFold | app/business/certificateIO.go:301-338 | An undisturbed ChangeStatus leaves the left fold of its accepted entries, uses exactly the requests counted, and flags exactly the entries whose certificate exists, written or not. |
| Sequential.FoldIsLastAccepted | app/business/certificateIO.go:310-335 | In that fold the last accepted entry for a certificate decides its flags, a certificate without one is untouched, files and the set of certificates are unchanged, and only the three flags, the upload flag and the date can differ. |
| Paging.SortedIsUnique | app/business/certificateIO.go:373 | Newest-first order by date and id leaves exactly one listing of a set of records. |
| Paging.SortNewest | app/business/certificateIO.go:373 | Sorting a set with distinct ids gives all its records, each once, in listing order. |
| Paging.PageIsSlice | app/chaincode/main.go:235-267 | A page behind the bookmark of record n is records n up to n + size of the full listing. |
| Sweep.NextMarkIsBehind | app/business/certificateIO.go:456-462 | A non-empty page gives a bookmark that differs from the last one, lies behind it, belongs to a stored match, and leaves no record of the page behind it. |
| Sweep.NoCertificateTwice | app/business/certificateIO.go:453-466 | With arbitrary commits between the queries, as long as no certificate is stamped back in time, no id is on two pages of one sweep. |
| Sweep.NoCertificateTwiceOnPage | app/chaincode/main.go:235-267 | Nor is an id twice on one page. |
| Sweep.NothingIsMissed | app/business/certificateIO.go:453-466 | Whatever else is committed meanwhile, a certificate that is stored, wanted and the same from the first query of a complete sweep to its last is on exactly one of its pages. |
| Sweep.RunsGiveHonestScenes | app/business/certificateIO.go:453-492 | A list request whose calls fall into any run of other operations starts from a sound ledger and meets only honest commits, so every ledger it meets is sound. |
| Sweep.SweepIsBoundedByCommits | app/business/certificateIO.go:453-466 | Whatever the stamps, a sweep has at most one page for each match it began with and one for each certificate committed between its queries. |
| Sweep.RemainingShrinks | app/business/certificateIO.go:453-466 | Once commits are stamped later than everything stored at the start, each non-empty page strictly shrinks the set of matches behind the bookmark. |
| Sweep.StrictStampsSettle | app/chaincode/main.go:106-122 | If each commit is stamped strictly later than every stored date, dates never go back and the sweep settles with its second query, which is all that its termination and freedom from repeats ask for. |
| Ties.EqualStampsNeverEnd | app/business/certificateIO.go:453-466 | With drafts committed in one and the same second, a draft list with blank conditions has, for every n, a sweep with n + 1 bookmarks that still gets a page, although no stamp goes back. |
| Snapshots.MarksDenoteOffsets | app/business/certificateIO.go:450-466 | On an unchanging ledger bookmark number i stands at offset min(i * size, N). |
| Snapshots.SweepCollectsAllPages | app/business/certificateIO.go:453-466 | The sweep ends with ceil(N / size) + 1 bookmarks. |
| Snapshots.SnapshotCount | app/business/certificateIO.go:478-496 | The count worked out from the last pages is N, for every N and size, with N = 0 and multiples of the size included; the extra query is asked exactly when N > 0. |
| Snapshots.SnapshotCountsMatching | app/business/certificateIO.go:478-496 | That count is the number of stored certificates that match. |
| Snapshots.SnapshotAnswer | app/business/certificateIO.go:468-499 | Page p up to ceil(N / size) is records (p-1) * size up to min(p * size, N) with cut dates; any larger p reports page ceil(N / size) + 1 and no certificates. |
| Snapshots.SnapshotQueries | app/business/certificateIO.go:453-492 | A list request issues exactly ceil(N / size) + 4 queries, three when nothing matches. |
| Snapshots.PagesRebuildSnapshot | app/business/certificateIO.go:468-476 | Pages 1 to ceil(N / size) put together are the snapshot, with no gap and no repeat. |
| Fabric.FabricSetup.GetCertificate | app/chaincode/main.go:134-151 | A read sees the ledger as it is at that call, is empty for an unknown id, and fails with the call. |
| Fabric.FabricSetup.GetDownloadFile | app/chaincode/main.go:187-204 | The same for files. |
| Fabric.FabricSetup.ExecutePostCertificate | app/chaincode/main.go:84-132 | A commit stores the certificate under its id with the peer's stamp; the caller sees a failure when nothing was committed and also when the commit was not announced in time. |
| Fabric.FabricSetup.ExecutePostUploadFile | app/fabricClient/execute.go:9-40 | A commit stores the file under its id in place of any earlier one; the caller sees a failure when nothing was committed and also when the commit was not announced in time. |
| Fabric.FabricSetup.CertificateIn | app/business/certificateIO.go:84-127 | Under every schedule its reply, its calls and the ledger it leaves are those of CertificateInRuns, and of the request chain that the run theorems are about. |
| Fabric.FabricSetup.CertificateOut | app/business/certificateIO.go:129-153 | Gives the stored certificate with the date cut to the day, never slicing out of bounds, and the three error codes. |
| Fabric.FabricSetup.DownloadFile | app/business/certificateIO.go:236-253 | The lookup of a download: the stored file as of that call, 404 without one, 400 if the call fails. |
| Fabric.FabricSetup.UploadFile | app/business/certificateIO.go:197-234 | Under every schedule its reply, its calls and the ledger it leaves are those of UploadRuns, and of its request chain: store the file, read the certificate, write it back as uploaded. |
| Fabric.UploadThenDownload | app/business/certificateIO.go:206-253 | If others store no file of this certificate in between, the download after an upload answers with exactly the file uploaded, once its commit is made, whether or not there was a file before and whether or not the upload reports a failure. |
| Fabric.FabricSetup.ChangeStatus | app/business/certificateIO.go:301-338 | Under every schedule, the array of entries, the ledger and the number of calls end as ListHasEffects says, and as its request chain does. |
| Fabric.FabricSetup.QueryList | app/chaincode/main.go:206-229 | Answers only when the call succeeds, the size fits 32 bits and the text is understood, and for sizes above zero always then, with the page behind the bookmark, in the order that the sort clause of the text asks for, and the bookmark of its last record; what comes back for other sizes is left open. |
| Fabric.FetchPage | app/chaincode/main.go:235-267 | Gathers the page record by record; only an empty page's bookmark is arbitrary. |
| Fabric.CutDates | app/business/certificateIO.go:521-523 | Cuts every date of the page to the day and changes nothing else. |
| Fabric.FabricSetup.GetNewBookmarks | app/business/certificateIO.go:503-526 | Gives the page of this very query of the sweep, with cut dates, or fails. |
| Fabric.FabricSetup.CollectBookmarks | app/business/certificateIO.go:450-466 | The loop ends, and unless a query fails its bookmarks are a complete sweep: each the key of the last record of the page before, the last one leading to an empty page. |
| Fabric.FabricSetup.CountRecords | app/business/certificateIO.go:478-496 | The count and the number of queries are those the snapshot theorems are about. |
| Fabric.FabricSetup.CertificateRichQuery | app/business/certificateIO.go:432-501 | Who is refused and with which code, when it succeeds (exactly when every query does), that the reply is the answer of a complete sweep, and that however it ends the ledger left behind is the one met plus what others have committed; it ends whenever stamps move on. |
| Lists.ListRichQuery | app/business/certificateIO.go:340-430 | From the conditions to the reply: refused exactly when not the open list, not claimed open and not logged in; for plain conditions every listed certificate shows a stored one that is wanted; and what an open list with plain or properly escaped conditions shows on a sound ledger with honest commits is open, completed, not deleted and has its file in the ledger left behind. |
| Lists.ListedAreWanted | app/business/certificateIO.go:468-498 | Each certificate of the answer shows, with its date cut, one that is stored when the page is asked for and that the list wants. |
| Lists.ListingsFitTheirList | app/business/certificateIO.go:340-430 | What the open list shows is completed, open and not deleted, the deleted list deleted, the draft list neither open nor completed nor deleted. |
| Lists.OpenListingsCanBeDownloaded | app/business/certificateIO.go:340-359 | For an open list request that selects from the open list, starts from a sound ledger and meets honest commits: every certificate of its answer is completed, open, not deleted, and has its file from then on at any later time. |
| Lists.OpenListingsInRuns | app/business/certificateIO.go:340-359 | The same for a request within any run of CertificateIn, UploadFile and ChangeStatus operations, with nothing assumed about the ledger or the commits. |
| Lists.ListThenDownload | app/business/certificateIO.go:245-253 | An open list, with plain or properly escaped conditions, and then the download of any certificate it shows, with commits in between: the file of this certificate is found unless the call itself fails. |
| SessionModel.InitKeeps | app/session/sessionProvider.go:15-23 | A new session at the back keeps the two parts of the list, and keeps ids distinct exactly when its id is new. |
| SessionModel.UpdateKeeps | app/session/sessionProvider.go:61-70 | A used session at the front keeps both. |
| SessionModel.PartsMeet | app/session/sessionProvider.go:15-70 | The list is a part of used sessions, last used first, then a part of never used ones, oldest first. |
| SessionModel.EveryStoreIsSound | app/session/sessionProvider.go:15-70 | In every state of every history of creations, uses, writes, removals and collections the ids are distinct and the list has its two parts. |
| SessionModel.CollectionIsAllOrNothing | app/session/sessionProvider.go:43-59 | A collection, even while the clock moves, removes nothing if the back session is live or the list is empty, and otherwise exactly all sessions expired at its last reading of the clock. |
| SessionModel.UsedComesFirst | app/session/sessionProvider.go:61-70 | Right after its use an existing session is the first of the list, with the time of the use and its old values; the others keep their order. |
| SessionModel.EventDecidesTime | app/session/sessionProvider.go:15-70 | What each event makes of the time noted for each session, and when a collection takes the session away, in seconds and without reference to how the list is kept. |
| SessionModel.SessionsInUseSurvive | app/session/sessionProvider.go:43-70 | In every history a session created or used at time t and not destroyed since survives every collection with t / 10^9 + lifetime >= last reading / 10^9. |
| SessionModel.IdleSessionsGo | app/session/sessionProvider.go:43-59 | If the session at the back was last used too long before the first reading of a collection, every session last used too long before its last reading is gone afterwards. |
| LoginModel.UpdateKeepsValues | app/session/sessionProvider.go:61-70 | Marking an id as used, also through a handle whose session is gone, changes no session's values and brings none back. |
| LoginModel.VisitDecides | app/app.go:132-221 | What each login, logout, test or collection does to the login state of each session, in both directions. |
| LoginModel.LoggedInMeansLoginStands | app/app.go:132-221 | After any visits a session is logged in if and only if some successful login on it has not been ended since by a logout on it, a logout whose raw cookie is its id, or a collection. |
| LoginModel.OnlyOwnLogoutsUnlessRawHits | app/session/sessionManager.go:63-94 | The same without the raw-cookie clause holds all along a run if and only if no logout's raw cookie hits another logged-in session. |
| LoginModel.RawCookieLogsOutAnother | app/session/sessionManager.go:80-94 | For any cookie whose two values differ, a login on the session that goes by its raw value, and a logout with this cookie that ends it. |
| LoginModel.EscapedIdIsLoggedOut | app/session/sessionManager.go:80-94 | The same at ids a client can send: "k%253D" logs in on "k%3D", and a logout with "k%3D", which stands for "k=", ends this login. |
| LoginModel.VisitsKeepSound | app/session/sessionManager.go:63-101 | In every state that logins, logouts, tests and collections lead to, the ids are distinct and the list has its two parts. |
| LoginModel.VisitedCollection | app/session/sessionManager.go:96-101 | Hence any collection among visits removes nothing or exactly the sessions expired at its last reading of the clock. |
| LoginModel.VisitDecidesTime | app/session/sessionManager.go:63-101 | What each login, logout, test or collection makes of the time noted for each session. |
| LoginModel.VisitedSessionsSurvive | app/session/sessionManager.go:63-101 | SessionsInUseSurvive for runs of visits: a session that a visit created or used lives through collections that are not too late for it, unless a logout destroys it under its raw cookie value. |
| LoginModel.VisitedIdleSessionsGo | app/session/sessionManager.go:96-101 | IdleSessionsGo for runs of visits. |
| LoginModel.OnlyAccountsAreLoggedIn | app/app.go:165-221 | In every run of visits a session holds a user name if and only if "adminuser1" with the first password or "adminuser2" with the second was sent on it by a login that has not been ended since. |
| LoginModel.OthersChangeNothing | app/app.go:149-184 | A login with any other name or password changes the values of no session. |
| LoginModel.AccountsLeaveTheirName | app/app.go:149-154 | A login of one of the two leaves its name, and changes nothing else, in its session. |
| LoginModel.FailedLoginChangesNothing | app/app.go:132-164 | A login that is turned down changes no session's values. |
| LoginModel.LogoutLogsOut | app/app.go:186-208 | After a logout the same request is not logged in, with or without cookie, whether or not a session went by the raw value, now or when the cookie comes back. |
| Sessions.List.PushBack | app/session/sessionProvider.go:20 | A new last element; links, ends and order of the rest stay. |
| Sessions.List.Remove | app/session/sessionProvider.go:37 | The element leaves, its neighbours are linked, the order of the rest stays. |
| Sessions.List.MoveToFront | app/session/sessionProvider.go:66 | The element comes first, the order of the rest stays. |
| Sessions.SessionStore.Set | app/session/sessionStore.go:13-16 | Writes the handle's own values, no other handle's, and no binding; seen in the list only through the current handle; the id counts as used. |
| Sessions.SessionStore.Get | app/session/sessionStore.go:18-29 | Reads the handle's value; the id counts as used. |
| Sessions.SessionStore.Delete | app/session/sessionStore.go:31-34 | As Set, for a removed key. |
| Sessions.SessionProvider.KeysAgree | app/session/sessionProvider.go:9-13 | The map's keys are exactly the ids of the list, and each leads to the element whose session has that id. |
| Sessions.SessionProvider.IdsAreDistinct | app/session/sessionProvider.go:9-13 | No id is twice in the list. |
| Sessions.SessionProvider.HoldingsShow | app/session/sessionProvider.go:9-13 | The bindings, handles and values on the heap are those that the theorems of Handles speak of: a handle is current there when it is here, and what is seen under an id is what the list says. |
| Handles.StaleForever | app/session/sessionProvider.go:15-70 | Over any course of creations, removals, collections, uses and writes, a handle that is not current never becomes current again, even when a session is created anew under its id. |
| Handles.StaleWritesAreUnseen | app/session/sessionStore.go:13-34 | No later write through it changes what is seen under any id, or what any other handle holds. |
| Handles.StaleHandlesDoNotMatter | app/session/sessionStore.go:13-34 | Two courses that differ only in writes through a stale handle show the same values under every id at every later time. |
| Sessions.SessionProvider.SessionInit | app/session/sessionProvider.go:15-23 | A fresh handle with fresh values at the back; no other handle's values change. |
| Sessions.SessionProvider.SessionRead | app/session/sessionProvider.go:25-32 | The current handle of the id, and nothing changes; if there is none a new handle never given out before, and all other bindings stay. |
| Sessions.SessionProvider.SessionDestroy | app/session/sessionProvider.go:34-41 | Map and list lose the id together, and nothing else. |
| Sessions.SessionProvider.SessionUpdate | app/session/sessionProvider.go:61-70 | Is the Used event of SessionModel: a known id moves to the front with the new time (UsedComesFirst), an unknown one changes nothing. |
| Sessions.SessionProvider.SessionGC | app/session/sessionProvider.go:43-59 | The loop ends and is a collection in the sense of CollectionIsAllOrNothing, with a clock reading per look; ids that survive stay bound to the handle they had, and no handle's values change. |
| Logins.Manager.SessionStart | app/session/sessionManager.go:63-77 | The current session of the cookie's unescaped value, or of a new id when there is no cookie value. |
| Logins.Manager.SessionDestroy | app/session/sessionManager.go:80-94 | Removes the session whose id is the raw cookie value, if any. |
| Logins.Manager.GC | app/session/sessionManager.go:96-101 | One collection with the manager's lifetime. |
| Logins.MotCertApp.PostLogin | app/app.go:132-184 | Code 200 if and only if the body is "adminuser1" with the first password or "adminuser2" with the second, 400 if and only if it is unreadable, 403 otherwise; unless the code is 200 no session's values change; and it is the login visit of LoginModel. |
| Logins.MotCertApp.IsLogin | app/app.go:210-221 | Is the test visit of LoginModel: true exactly when the session of the request holds a non-empty name, and a use of it. |
| Logins.MotCertApp.PostLogout | app/app.go:186-208 | Is the logout visit of LoginModel, and its code is always 200: the failure branch is never taken. |

## Left out

- Fabric.FabricSetup.CertificateRichQuery: a request that gets as far as the peer has a page size above zero, because what the peer answers to others, and so whether the sweep ends, is not decided in the repository; its end is proved for ledgers whose stamps move on (Sweep.StrictStampsSettle shows that strictly later stamps do, Ties.EqualStampsNeverEnd that non-decreasing ones need not).
- SelectorReading.PrintedQuerySaysIntended: for conditions that are not plain it says that the text is not the intended query; what it is instead is said for escapes in order (Escaping.PrintedQuerySaysMeant), not for a bare quote or a broken escape.
- Fabric.FabricSetup.UploadFile: starts where the PDF has been read and recognised; files on disk, content types and download streams are operating-system effects.
- Fabric.FabricSetup.QueryList: says nothing about the answer to page sizes below one. CouchDB's collation of strings is taken as code-point order, its index hint as having no effect on the result, and each page as the part of the committed ledger behind the bookmark.
- Lists.ListRichQuery: stands for the three list functions, which differ in their base query and in who sets isOpen; the decoding of their JSON bodies, and of those of the other operations, is not modelled.
- Fabric.CouchQuery: a text that asks for another order than that of the index is taken as not understood; no query with plain or properly escaped conditions does (Escaping.LegibleAsksNewestFirst).
- Sessions.List.PushBack: Go's list is a ring around a sentinel; here the two ends are fields.
- Logins.Manager.SessionStart: the random id is a parameter that must be new; the fixed empty id that the code falls back to when no random bytes are to be had is left out, as is the escaping itself (a cookie has a raw and an unescaped value that may differ in any way).
- Logins.Manager.GC: the timer that starts the next collection is left out; a collection may happen at any time.
- Json.OnlyPlainCharsAreKept: the reader turns surrogate halves into U+FFFD instead of pairing them.
- Locks and data races inside the session store: handlers run one after the other, so a handle used by one while another destroys its session is covered only as a stale handle.
- Endorsement, read sets and the order of blocks: a commit takes effect at its turn, with the stamp of that turn.
- The deadline of the event (30 seconds) and the loading of the PRC time zone: an outcome and a moment are parameters of each call. The local time of that zone is taken as it is printed.
- The response that is empty without an error (app/business/certificateIO.go:511-513): queryList always returns a text.
- The branch of CertificateIn for a stored file that is not JSON (app/business/certificateIO.go:107-110): postUploadFile stores only texts that decode.
- Lists.ListThenDownload: for plain or properly escaped conditions; with a bare quote or a broken escape the text need not be a query of the open list.
- Passwords: two parameters.
- HTTP routing, headers, TLS, the Fabric SDK, logging, version and benchmark code, basicAuthenticate, and the sample pages of app/session/session_test.go.
