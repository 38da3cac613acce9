# PDF Organizer — a Dafny model of its decision logic

PDF Organizer lets a user collect PDF files, put them in order, and merge or
split them. It comes in three parts:

- **The web backend** (FastAPI). It has accounts (register, login, token
  refresh, profile update, password change, statistics) and PDF projects
  (upload, reorder, merge, download). A PDF service does the merging,
  splitting and saving. Pydantic schemas check the requests, a filename
  cleaner guards the file names, and monitoring aggregates request metrics
  and health checks.
- **The web frontend** (React). It has a service worker that caches requests
  and drains offline queues, an analytics event queue, and a persisted
  authentication store. Its projects, settings and profile pages keep small
  pieces of state.
- **The desktop organizer** (PyQt). It comes in two variants: the
  single-file `organizador_pdf.py` and the `pdf_organizer` package. The
  package has a main window, a PDF card and a background merge worker.

The model has one Dafny module per source file, plus a few shared modules:

- `Wrappers` for Option and Result;
- `Text` for string helpers;
- `Arith` for arithmetic;
- `Lists` for list operations;
- `Ordering` for sorting and insertion;
- `Pdf`, where a document is a sequence of pages with a readable flag and
  the file system is an abstract map.
- `AppStartup` for the backend's start-up, where `backend/app/main.py`
  imports the routers.

How the source's state is modelled:

- State the source updates in place is a `class`. Examples: the service
  worker with its caches and pending queues, the analytics service, the
  authentication store, both organizer windows, the database tables, the
  performance monitor and the metrics collector.
- A method's contract ties the new state to specification functions. The
  properties of those functions are proved as lemmas.
- Pure pieces are functions with lemmas: validators, filename cleaning,
  split chunking, key building, percentiles and page reducers.

The system's outside world enters as parameters: fetch outcomes, clock
readings, confirmation dialogs, password checks, uuids and file contents.

## Model

| member | source | states |
|---|---|---|
| CacheStore.Open | frontend/public/sw.js:121 | opening an existing cache returns the caches unchanged; opening a new name appends one empty cache of that name |
| CacheStore.Match | frontend/public/sw.js:99 | a lookup finds a response exactly when some cache holds the key, and what it finds is the entry of the first cache, in creation order, that holds the key |
| CacheStore.OpenKeeps | frontend/public/sw.js:121 | opening keeps every stored response ok and every cache name unique, and the cache exists afterwards |
| CacheStore.DeleteNone | frontend/public/sw.js:53 | deleting a name no cache has changes nothing |
| CacheStore.DeleteOnly | frontend/public/sw.js:53 | deleting a name that occurs once removes that cache and keeps the others in order |
| CacheStore.DeleteKeepsOthers | frontend/public/sw.js:49-56 | deleting one cache keeps every other cache, with the same contents |
| CacheStore.PutKeepsAllOk | frontend/public/sw.js:119-122 | writing an ok response keeps every stored response ok |
| CacheStore.PutKeepsUniqueNames | frontend/public/sw.js:121-122 | writing never creates a second cache of the same name; the names only grow by the written one when it was new |
| CacheStore.MatchAfterPut | frontend/public/sw.js:122 | after a write the key is found, it is found with the written response when no cache held it before, and every other key is looked up as before |
| CacheStore.MatchPutSame | frontend/public/sw.js:122 | after a write the key is found, with the written response when no cache held it before |
| CacheStore.MatchPutOther | frontend/public/sw.js:122 | a write leaves the lookup of every other key unchanged |
| ServiceWorker.RouteOf | frontend/public/sw.js:66-89 | non-GET requests are not intercepted; GET requests go to the API handler (own origin, path under /api/), the static handler (own origin, other paths) or the external handler (other origins), exactly one each |
| ServiceWorker.ShouldCacheShapes | frontend/public/sw.js:16-20 | an API path is cached exactly when it is some text followed by /api/users/me or /api/users/stats, or has /api/pdf/projects/ somewhere inside it |
| ServiceWorker.ShouldCacheExcludesLogin | frontend/public/sw.js:16-20 | the login endpoint is never cached |
| ServiceWorker.ShouldCacheExcludesBelowMe | frontend/public/sw.js:17 | the `$` anchor is honoured: a path below /api/users/me/ is not cached |
| ServiceWorker.ExternalCacheableShapes | frontend/public/sw.js:227 | a cross-origin URL is cacheable exactly when it is some text, then "cdn" or "fonts", then some text |
| ServiceWorker.StaticFallbackOk | frontend/public/sw.js:178-217 | when every cached response is ok, the static fallback (cached response, app shell for navigations, offline page) is an ok response |
| ServiceWorker.PutAllMatches | frontend/public/sw.js:30 | after addAll every listed URL is found, and URLs not listed are looked up as before |
| ServiceWorker.PutAllKeeps | frontend/public/sw.js:30 | addAll of ok responses keeps every stored response ok and every cache name unique |
| ServiceWorker.PrunedKeepsCurrent | frontend/public/sw.js:51 | activation keeps exactly the caches named as the static or dynamic cache (never the generic one), and pruning twice is pruning once |
| ServiceWorker.PrunedValid | frontend/public/sw.js:47-56 | the kept caches are among the old ones, and all-ok and unique names are kept |
| ServiceWorker.PrunedAppend | frontend/public/sw.js:50 | the cleanup of a list of caches is the cleanup of each part in turn |
| ServiceWorker.PruneStep | frontend/public/sw.js:50-54 | one iteration of the cleanup keeps a current cache and deletes a stale one, which brings the caches to the pruned prefix plus the caches not yet visited |
| ServiceWorker.PruneDropStep | frontend/public/sw.js:53 | deleting a stale cache removes just that cache, since its name occurs once |
| ServiceWorker.PushNotification | frontend/public/sw.js:326-355 | a push without data shows the default title, body and tag; otherwise each missing or empty field takes its default; icon, badge, vibration and the two actions are fixed, and title, body and tag are never empty |
| ServiceWorker.ClickTarget | frontend/public/sw.js:364-377 | "dismiss" opens nothing; "view" opens the notification's url or "/"; any other action opens "/"; an opened URL is never empty |
| ServiceWorker.ReplaySnoc | frontend/public/sw.js:262-283 | one more replayed item is kept when its fetch or its removal failed, and completed otherwise |
| ServiceWorker.KeptDoneFrom | frontend/public/sw.js:262-283 | kept and completed items come from the pending store, and the kept ones keep distinct keys |
| ServiceWorker.KeptFrom | frontend/public/sw.js:262-283 | every kept item was pending |
| ServiceWorker.DoneFrom | frontend/public/sw.js:262-283 | every completed item was pending |
| ServiceWorker.KeptUnique | frontend/public/sw.js:262-283 | the kept items have distinct keys |
| ServiceWorker.KeptExactly | frontend/public/sw.js:262-283 | an item stays pending exactly when its fetch threw or its removal failed |
| ServiceWorker.DoneExactly | frontend/public/sw.js:262-283 | an item is notified exactly when its fetch resolved and its removal succeeded |
| ServiceWorker.ReplayPartition | frontend/public/sw.js:262-283 | kept and completed items together are the pending items, each once |
| ServiceWorker.RemoveByIdAbsent | frontend/public/sw.js:271 | removing a key no item has changes nothing |
| ServiceWorker.RemoveOnly | frontend/public/sw.js:271 | removing a key that occurs once removes just that item, keeping the others in order |
| ServiceWorker.RemoveStep | frontend/public/sw.js:271 | removing the current item by its key leaves the items kept so far followed by those not yet visited |
| ServiceWorker.RequestsNoticesSnoc | frontend/public/sw.js:264-279 | one more item adds its request and its notification at the end |
| ServiceWorker.ReplayStep | frontend/public/sw.js:262-283 | one iteration keeps the loop's invariant: store, requests sent and notifications shown are those of the items visited so far |
| ServiceWorker.ReplayStoreStep | frontend/public/sw.js:271 | the store after one more iteration is the items kept so far followed by the items not yet visited |
| ServiceWorker.Replay | frontend/public/sw.js:262-283 | the drain sends one request per pending item, in order, leaves exactly the failed items pending and notifies exactly the completed ones, in order |
| ServiceWorker.SyncTarget | frontend/public/sw.js:249-253 | the tag "pdf-upload" starts the upload drain, "pdf-operations" the operation drain, and any other tag nothing |
| ServiceWorker.Worker.constructor | frontend/public/sw.js:380-398 | the worker starts from the given caches and pending stores, with nothing sent, shown or opened |
| ServiceWorker.Worker.Install | frontend/public/sw.js:23-40 | install opens the static cache; when every static file is fetched ok they are all stored and waiting is skipped, otherwise the error is swallowed and nothing is stored |
| ServiceWorker.Worker.Activate | frontend/public/sw.js:43-63 | activation leaves exactly the pruned caches and claims the clients |
| ServiceWorker.Worker.HandleFetch | frontend/public/sw.js:66-89 | a non-GET request is not answered and changes nothing; an API request is answered as the API handler promises, a same-origin one as the static handler promises (an `ok` answer even when the network throws), a cross-origin one as the external handler promises; only the API route can start a background refresh |
| ServiceWorker.Worker.HandleApiRequest | frontend/public/sw.js:92-151 | paths off the allow-list go to the network untouched; a cached allow-listed path is answered from cache and refreshed in the background; otherwise the network answer is returned and stored when ok, and a network failure gives the cached or offline answer |
| ServiceWorker.Worker.BackgroundRefresh | frontend/public/sw.js:104-112 | the background fetch stores an ok response in the dynamic cache and ignores everything else |
| ServiceWorker.Worker.HandleStaticRequest | frontend/public/sw.js:154-219 | a cached request is answered from cache; otherwise the network answer is returned and stored when ok; a network failure gives the fallback chain, which is always an ok response |
| ServiceWorker.Worker.HandleExternalRequest | frontend/public/sw.js:222-243 | the network answer is returned, and stored only when ok and from a CDN or font host; on failure the cached answer is returned, or the error is rethrown |
| ServiceWorker.Worker.SyncPendingUploads | frontend/public/sw.js:257-287 | the upload drain, with the store, requests and notifications stated by Replay |
| ServiceWorker.Worker.SyncPendingOperations | frontend/public/sw.js:290-320 | the operation drain, with the store, requests and notifications stated by Replay |
| ServiceWorker.Worker.Sync | frontend/public/sw.js:246-254 | a known tag drains exactly its own store and leaves the other store alone; an unknown tag changes nothing |
| ServiceWorker.Worker.Push | frontend/public/sw.js:323-356 | a push shows exactly one notification, the one PushNotification builds |
| ServiceWorker.Worker.Click | frontend/public/sw.js:359-378 | a click opens at most one window, the one ClickTarget names |
| Analytics.KeepNewestSuffix | frontend/src/services/analytics.ts:272-275 | the backlog is the newest part of the events: their last entries in order, all of them when there are at most 1000 |
| Analytics.KeepNewestPush | frontend/src/services/analytics.ts:268-275 | trimming after every push gives the same backlog as trimming once at the end |
| Analytics.StoreAllIsNewest | frontend/src/services/analytics.ts:234 | storing a batch event by event leaves the newest 1000 of the old backlog followed by the batch |
| Analytics.KeepNewestAppend | frontend/src/services/analytics.ts:272-275 | trimming a backlog and then appending and trimming again is trimming once |
| Analytics.StoreStep | frontend/src/services/analytics.ts:234 | one more stored event keeps the "newest of everything so far" invariant |
| Analytics.Service.constructor | frontend/src/services/analytics.ts:32-40 | a new service is offline or online as the browser says, has no user, and has tracked exactly one page view, which is queued and stored |
| Analytics.Service.StoreLocally | frontend/src/services/analytics.ts:266-281 | storing one event appends it to the backlog and drops the oldest beyond 1000 |
| Analytics.Service.StoreEach | frontend/src/services/analytics.ts:234 | storing a batch event by event leaves the newest 1000 of backlog plus batch; an empty batch changes nothing |
| Analytics.Service.BeginFlush | frontend/src/services/analytics.ts:226-248 | an empty queue does nothing; otherwise the whole queue is taken and emptied, and it is either stored locally (offline, not immediate) or sent as one batch |
| Analytics.Service.FinishFlush | frontend/src/services/analytics.ts:250-263 | a successful send clears the backlog and leaves the queue; a failed one puts the batch back in front of the events tracked meanwhile, in order, and stores it locally |
| Analytics.Service.Track | frontend/src/services/analytics.ts:143-168 | the event carries the session id (and the user id when non-empty) and is appended to the queue and backed up; when that fills the queue to 100, the whole queue, new event included, is emptied and either sent as one batch (online) or moved into the backlog, where the new event then lands twice (offline) |
| Analytics.Service.TrackPageView | frontend/src/services/analytics.ts:170-177 | pageViews rises by exactly one, and a page_view event for the given page (or the current path) and title is tracked as Track promises, the full-queue flush included |
| Analytics.Service.UpdateLastActivity | frontend/src/services/analytics.ts:120-123 | actionsPerformed rises by exactly one |
| Analytics.Service.SetUserId | frontend/src/services/analytics.ts:137-141 | the user id is set, and a user_identified event carrying it is tracked as Track promises, the full-queue flush included |
| Analytics.Service.GoOnline | frontend/src/services/analytics.ts:62-65 | going online marks the service online and keeps the stored backlog as it is; a non-empty queue is sent whole and emptied, and an empty one sends nothing |
| Analytics.Service.GoOffline | frontend/src/services/analytics.ts:67-69 | going offline only marks the service offline |
| Analytics.Service.LoadStoredEvents | frontend/src/services/analytics.ts:292-303 | with no backlog nothing happens; otherwise the backlog is queued behind the queue and flushed: online the whole queue is sent and the backlog stays, offline the queue goes into the backlog, which then holds its old events twice |
| Analytics.FailedFlushStoresTwice | frontend/src/services/analytics.ts:250-259 | for every backlog and batch: an event stored by `track` and stored again by the failed flush of a batch holding it ends up as the newest of backlog, event, batch; with room, it occurs twice more than in the backlog and the rest of the batch |
| AuthStore.ErrorMessage | frontend/src/store/authStore.ts:74 | the server's non-empty `detail` is shown when there is one, the fallback text otherwise |
| AuthStore.Store.constructor | frontend/src/store/authStore.ts:40-45 | a fresh store has no user and no token, is not authenticated or loading, has no error and sets no header |
| AuthStore.Store.Rehydrate | frontend/src/store/authStore.ts:150-162 | restoring a snapshot gives back exactly the persisted fields, and the Authorization header is set iff the restored token is non-empty |
| AuthStore.Store.Persisted | frontend/src/store/authStore.ts:152-156 | exactly user, token and isAuthenticated are persisted |
| AuthStore.Store.BeginRequest | frontend/src/store/authStore.ts:48 | a request in flight is loading and clears the previous error |
| AuthStore.Store.FinishLogin | frontend/src/store/authStore.ts:61-83 | a successful login stores the user and token, authenticates and sets the Bearer header; a failed one forgets the session, keeps the header and shows the detail or "Erro ao fazer login"; loading ends either way |
| AuthStore.Store.Login | frontend/src/store/authStore.ts:47-84 | login posts the credentials, and the answer its `await` sees decides: a success stores the user and token, authenticates and sets the Bearer header; a failure forgets the session and shows the detail or "Erro ao fazer login". A 401 on the first POST (wrong credentials) passes the interceptor, which runs the refresh first when a token is held and then posts the credentials again, and the second answer is the one that decides; a failed login leaves the header as that refresh left it, so it is unchanged without a 401 or without a token |
| AuthStore.Store.Register | frontend/src/store/authStore.ts:86-102 | a refused registration shows its detail or "Erro ao registrar usuário" and leaves the session and header alone; an accepted one logs in with the same credentials as Login says, the 401 refresh and resend included, and then either stores the user and token and sets the Bearer header, or forgets the session and shows the deciding login answer's detail or the registration fallback, with the header as the login left it |
| AuthStore.Store.Logout | frontend/src/store/authStore.ts:104-114 | logout forgets user, token, authentication and error, and removes the header |
| AuthStore.Store.ClearError | frontend/src/store/authStore.ts:116-118 | the error is cleared |
| AuthStore.Store.SetLoading | frontend/src/store/authStore.ts:120-122 | loading takes the given value |
| AuthStore.Store.RefreshToken | frontend/src/store/authStore.ts:124-148 | as corrected: with no token nothing is sent or changed; otherwise the token is sent as a Bearer header once, success replaces token and header, and every failure, a 401 included, logs out |
| AuthStore.Decide | frontend/src/store/authStore.ts:171-186 | a response is refreshed and retried iff its status is 401 and the request was not retried already; the retry is the same request marked as retried |
| AuthStore.AtMostOneRetry | frontend/src/store/authStore.ts:173-174 | a retried request is never retried again, whatever its second status |
| AuthStore.Intercept | frontend/src/store/authStore.ts:168-188 | the interceptor decides as Decide says; a rejection, and a retry with no token held, leave the store alone; a retry with a token sends one refresh POST with it, and then either replaces the token and the header and keeps the user, the authentication and the error, or logs out |
| AuthStore.Retried | frontend/src/store/authStore.ts:173 | a login goes through the refresh and resend exactly when its first answer is a 401 |
| AuthStore.LoginCalls | frontend/src/store/authStore.ts:173-178 | a login sends the credentials once, or after a 401 twice, with the refresh POST carrying the held token between the two when there is one |
| AuthStore.MarkedRefreshPassesThrough | frontend/src/store/authStore.ts:171 | a request already marked as retried is rejected by the interceptor whatever its status, so a marked refresh POST reaches `refreshToken`'s own catch |
| AuthStore.RefreshAsWritten | frontend/src/store/authStore.ts:124-148 | as written, a settled chain of refresh POSTs uses up at least one of the server's answers |
| AuthStore.RefreshIntended | frontend/src/store/authStore.ts:124-148 | as intended, a refresh sends exactly one POST and settles iff it is answered; the answer alone decides between the new token and a logout |
| AuthStore.RefreshLoopsOn401 | frontend/src/store/authStore.ts:132-147 | as written, when every refresh POST is answered 401 there is one more POST with the same Bearer token per 401 and the chain never settles, so the user is never logged out |
| AuthStore.RefreshAgreesUnless401 | frontend/src/store/authStore.ts:132-147 | as written and as intended agree on every first answer except a 401 |
| Organizer.DraggedNumber | organizador_pdf.py:682-688 | a drop yields a card number only when its text carries the "pdf_card:" prefix and the piece after the first ':' is a decimal number |
| Organizer.PayloadRoundTrip | organizador_pdf.py:213 | the text a card puts on a drag is accepted by the grid and gives back that card's number |
| Organizer.DroppedPdfs | organizador_pdf.py:742-748 | a drop of files keeps exactly the paths that end in ".pdf" in any case and name an existing file |
| Organizer.CardQt.constructor | organizador_pdf.py:19-23 | a new card is for its file, carries the given number, is not highlighted and not yet placed |
| Organizer.CardQt.Select | organizador_pdf.py:156-158 | the card's highlight turns on; its number and cell stay |
| Organizer.CardQt.Deselect | organizador_pdf.py:168-170 | the card's highlight turns off; its number and cell stay |
| Organizer.CardQt.UpdateNumber | organizador_pdf.py:184-187 | the card shows the new number; highlight and cell stay |
| Organizer.CardQt.Place | organizador_pdf.py:515 | the card moves to the given grid cell; number and highlight stay |
| Organizer.CountPages | organizador_pdf.py:526-532 | the page counter is the sum of the page counts of the readable files; unreadable files count nothing |
| Organizer.CollectPages | organizador_pdf.py:776-781 | the merge succeeds iff every file is readable, and then yields all their pages in list order |
| Organizer.Window.constructor | organizador_pdf.py:237-241 | a new window has no files, no cards, no selection, and has written nothing |
| Organizer.Window.UpdateStatistics | organizador_pdf.py:520-534 | the counters show the number of listed files and the pages of the readable ones; nothing else changes |
| Organizer.Window.Reorganize | organizador_pdf.py:509-518 | every card i is placed at row i / 4, column i % 4 and numbered i + 1, in list order, and the counters are refreshed |
| Organizer.Window.AddFiles | organizador_pdf.py:563-586 | the list becomes the old list followed by the new paths not already present, each once, with one card each; the count of added files is returned and the grid is laid out again |
| Organizer.Window.AppendFile | organizador_pdf.py:576-583 | a path not yet listed goes at the end with a fresh card, keeping list and cards parallel |
| Organizer.Window.DropFiles | organizador_pdf.py:740-754 | only the dropped existing ".pdf" files are added; a drop without any changes nothing |
| Organizer.Window.Select | organizador_pdf.py:536-549 | the clicked card becomes the selection and is the only highlighted card; list and cards stay |
| Organizer.Window.Remove | organizador_pdf.py:588-610 | with no selection nothing changes; otherwise the selected card's position goes from both the list and the cards, the selection is cleared and the grid is laid out again |
| Organizer.Window.Clear | organizador_pdf.py:612-624 | the list, the cards and the selection are emptied and the counters show zero |
| Organizer.Window.MoveUp | organizador_pdf.py:626-642 | the selected entry trades places with its predecessor in both lists when it has one; otherwise nothing changes |
| Organizer.Window.MoveDown | organizador_pdf.py:644-660 | the selected entry trades places with its successor in both lists when it has one; otherwise nothing changes |
| Organizer.Window.SwapTogether | organizador_pdf.py:632-635 | one swap is applied to the list and the cards alike, so they stay parallel |
| Organizer.Window.FindNumbered | organizador_pdf.py:709-713 | the search returns the first card carrying the number, or -1 when none does; on a laid-out grid that is position n - 1 for 1 <= n <= the number of cards |
| Organizer.Window.Drop | organizador_pdf.py:680-733 | a drop whose text names a card other than the target's moves that entry of both lists to the target position (one lower when it came from before it); any other drop changes nothing |
| Organizer.Window.DropAt | organizador_pdf.py:707-731 | the card numbered n, when it exists and is not the target, is moved to the target in both lists |
| Organizer.Window.MoveTogether | organizador_pdf.py:717-726 | one pop-and-insert is applied to the list and the cards alike |
| Organizer.Window.Generate | organizador_pdf.py:756-797 | an empty list warns, a cancelled dialog does nothing, and otherwise the output file gets every page of every file in order, or nothing is written when a file is unreadable or the write fails |
| MainWindow.ReadableOnly | pdf_organizer/main_window.py:364 | keeps exactly the paths of a batch the reader can open |
| MainWindow.ValidAppendIsDedupOfReadable | pdf_organizer/main_window.py:362-365 | validating while appending is the duplicate-free append of the batch's readable paths |
| MainWindow.ValidAppendAddsReadable | pdf_organizer/main_window.py:363-365 | every path the list gains was in the batch and can be opened by the reader |
| MainWindow.SumInfo | pdf_organizer/main_window.py:428-431 | the summing loop yields the total pages and the total bytes the reader reports for the listed files |
| MainWindow.FirstSelected | pdf_organizer/main_window.py:454 | the first highlighted card, or none exactly when no card is highlighted |
| MainWindow.Window.constructor | pdf_organizer/main_window.py:24-28 | a new window lists no files and no cards, runs no worker, shows the instructions with merging and organizing disabled |
| MainWindow.Window.UpdateInformation | pdf_organizer/main_window.py:422-437 | the side panel shows the number of files and their total pages and bytes; nothing else changes |
| MainWindow.Window.UpdateInterface | pdf_organizer/main_window.py:374-398 | the cards are rebuilt fresh and unselected, one per file in order and laid on the grid; the instructions show iff there are no files, merging is enabled iff there are at least two, and the panel is refreshed only when there are files |
| MainWindow.Window.ProcessNewFiles | pdf_organizer/main_window.py:360-372 | the list gains each new readable path once, in order; the paths warned about are the new unreadable ones |
| MainWindow.Window.OnCardClicked | pdf_organizer/main_window.py:406-420 | the clicked card's highlight flips, every other card's goes off, and the organizing buttons are enabled iff the clicked card ends highlighted |
| MainWindow.Window.SelectOnly | pdf_organizer/main_window.py:408-414 | the cards' part of a click: only the clicked card is flipped, the others turn off, numbers stay |
| MainWindow.Window.MoveSelectedUp | pdf_organizer/main_window.py:452-462 | the first highlighted file trades places with its predecessor when it has one; otherwise nothing changes |
| MainWindow.Window.MoveSelectedDown | pdf_organizer/main_window.py:464-474 | the first highlighted file trades places with its successor when it has one; otherwise nothing changes |
| MainWindow.Window.RemoveSelected | pdf_organizer/main_window.py:476-493 | the first highlighted file is deleted only when the user confirms; otherwise nothing changes |
| MainWindow.Window.ClearFiles | pdf_organizer/main_window.py:439-450 | a non-empty list is emptied only when the user confirms, showing the instructions and disabling merging |
| MainWindow.Window.Merge | pdf_organizer/main_window.py:495-528 | fewer than two files are refused, a cancelled save dialog does nothing, and otherwise the worker starts on the current list with the progress bar at 0 and merging disabled |
| MainWindow.Window.RunJob | pdf_organizer/main_window.py:523-547 | the worker's signals are those PdfProcessor.Signals gives, the output holds every page in order iff all files are readable and the write succeeds, and at the end the bar is hidden and merging is enabled again |
| PdfCard.DisplayName | pdf_organizer/pdf_card.py:91-95 | the label is the file's basename when it has at most 28 characters, and otherwise its first 25 characters followed by "...", so never longer than 28 |
| PdfCard.CountOf | pdf_organizer/pdf_card.py:111-118 | a page count is shown exactly when the document opens, and it is the file's number of pages |
| PdfCard.PageLabelReadsBack | pdf_organizer/pdf_card.py:116-118 | the page label starts with the count it was made from, is plural exactly when the count is not 1, and never reads as the error text |
| PdfCard.Card.constructor | pdf_organizer/pdf_card.py:18-25 | a new card is unselected, carries its number, and shows the file's display name and page label |
| PdfCard.Card.ToggleSelection | pdf_organizer/pdf_card.py:169-172 | the selection flips and the style follows it; the number stays |
| PdfCard.Card.SetSelected | pdf_organizer/pdf_card.py:174-177 | the selection takes the given value and the style follows it; the number stays |
| PdfCard.Card.UpdateNumber | pdf_organizer/pdf_card.py:210-213 | the card carries the new number; selection and style stay |
| PdfCard.ToggleTwice | pdf_organizer/pdf_card.py:169-172 | toggling a card twice restores its selection and its style |
| PdfProcessor.PercentBounds | pdf_organizer/pdf_processor.py:43 | the whole percentage after each file is at most 100 and is exactly 100 after the last file |
| PdfProcessor.PercentMonotone | pdf_organizer/pdf_processor.py:43 | progress never goes down from one file to the next |
| PdfProcessor.ProgressUpTo | pdf_organizer/pdf_processor.py:35-44 | one progress signal per file read, each carrying that file's whole percentage |
| PdfProcessor.SignalsShape | pdf_organizer/pdf_processor.py:23-58 | a run emits progress signals and then exactly one final signal: `finished` with the output path iff every file was read and the output saved, an error otherwise; progress is non-decreasing, at most 100, and reaches 100 when every file was read |
| PdfProcessor.Merge | pdf_organizer/pdf_processor.py:30-58 | the worker emits the signals Signals describes, and writes every page of every file in order exactly when all files are readable and the output can be written |
| PdfProcessor.GetInfo | pdf_organizer/pdf_processor.py:65-88 | a readable file reports its page count and byte size; an unreadable one reports failure with 0 pages and size 0 |
| PdfProcessor.ValidatePdf | pdf_organizer/pdf_processor.py:91-99 | a file is valid exactly when the reader can open it |
| PdfProcessor.FormatSize | pdf_organizer/pdf_processor.py:102-114 | a missing file's size is unknown; otherwise bytes below 1024, kilobytes below 1024 * 1024, megabytes from there, and the byte text reads back as the exact size |
| Monitoring.Newest | backend/app/utils/monitoring.py:30 | a bounded buffer holds at most its capacity and everything when there is room |
| Monitoring.NewestSnoc | backend/app/utils/monitoring.py:30 | appending to a bounded buffer keeps the newest entries of everything ever appended |
| Monitoring.NewestIsSuffix | backend/app/utils/monitoring.py:30 | the buffer's entries are the newest ones, in their original order |
| Monitoring.MinDuration | backend/app/utils/monitoring.py:51 | the least duration of a non-empty history is one of its durations and no greater than any |
| Monitoring.MaxDuration | backend/app/utils/monitoring.py:52 | the greatest duration is one of the history's durations (0 when empty) and no smaller than any |
| Monitoring.WithKey | backend/app/utils/monitoring.py:46 | the metrics selected for a key all carry that key |
| Monitoring.RecordAggregate | backend/app/utils/monitoring.py:47-55 | updating an entry with one metric gives the count, total, minimum, maximum and error count of the longer history |
| Monitoring.WithKeySnoc | backend/app/utils/monitoring.py:46-47 | a new metric joins the history of its own key and of no other |
| Monitoring.ErrorCountBound | backend/app/utils/monitoring.py:54-55 | an endpoint never has more errors than requests |
| Monitoring.AggregateConsistent | backend/app/utils/monitoring.py:48-55 | an aggregate's errors are among its requests and its minimum never exceeds its maximum |
| Monitoring.RecordKeepsHistory | backend/app/utils/monitoring.py:46-55 | after a metric is recorded the entries are still exactly the keys seen, each holding the statistics of all its metrics |
| Monitoring.OtherKeyUnchanged | backend/app/utils/monitoring.py:46-47 | a metric under one key leaves every other key's history alone |
| Monitoring.HistoryConsistent | backend/app/utils/monitoring.py:31-55 | statistics kept by recording are consistent for every key |
| Monitoring.PerformanceMonitor.constructor | backend/app/utils/monitoring.py:29-38 | a new monitor has the given capacity, no metrics and no statistics |
| Monitoring.PerformanceMonitor.RecordMetric | backend/app/utils/monitoring.py:41-55 | the metric joins the bounded buffer, which keeps its newest entries, and only its key's entry is updated, so each endpoint's statistics stay those of its whole history |
| Monitoring.Position | backend/app/utils/monitoring.py:238 | where the dictionary holds a name, or none exactly when no entry has it |
| Monitoring.RegisterEffect | backend/app/utils/monitoring.py:236-243 | after registering, the name is held exactly once with the new flag, every other entry keeps its place, and the dictionary grows only for a new name |
| Monitoring.RegisterReplaces | backend/app/utils/monitoring.py:238-243 | registering a name again replaces the earlier registration |
| Monitoring.OverallPrefix | backend/app/utils/monitoring.py:270-287 | each check moves the status as the loop does: a failing critical check makes it critical, another failing one makes a healthy status degraded |
| Monitoring.OverallNeverDowngrades | backend/app/utils/monitoring.py:248-287 | running more checks never lowers the overall status; critical stays critical |
| Monitoring.HealthChecker.constructor | backend/app/utils/monitoring.py:232-234 | a new checker has no checks |
| Monitoring.HealthChecker.RegisterCheck | backend/app/utils/monitoring.py:236-243 | the checks become those registered with this name and flag |
| Monitoring.HealthChecker.RunChecks | backend/app/utils/monitoring.py:245-293 | the overall status is Overall of the outcomes, and there is one report for exactly each registered name, saying whether it passed, failed or raised, and whether it is critical |
| Monitoring.TagTexts | backend/app/utils/monitoring.py:386 | each tag is shown as key, "=", value, one text per tag and in the given order |
| Monitoring.MakeKeyBare | backend/app/utils/monitoring.py:383-387 | the key is the bare name exactly when there are no tags, and it always starts with the name |
| Monitoring.MakeKeySorted | backend/app/utils/monitoring.py:386-387 | with tags the key is the name followed by the tags in increasing key order, comma-separated in brackets |
| Monitoring.MakeKeyOrderFree | backend/app/utils/monitoring.py:381-387 | equal tag dictionaries give equal keys, whatever their insertion order |
| Monitoring.Percentile | backend/app/utils/monitoring.py:410-414 | the percentile is one of the values; at 100 or more it is the maximum and at 0 the minimum |
| Monitoring.PercentileIndexPastEnd | backend/app/utils/monitoring.py:413-414 | from the 100th percentile on the computed index is past the end, so the last sorted value is taken |
| Monitoring.MetricsCollector.constructor | backend/app/utils/monitoring.py:352-356 | a new collector has no counters, gauges or histograms |
| Monitoring.MetricsCollector.Increment | backend/app/utils/monitoring.py:358-361 | only the key's counter changes, rising by the value from 0 when new |
| Monitoring.MetricsCollector.Gauge | backend/app/utils/monitoring.py:363-366 | only the key's gauge changes, to the new value |
| Monitoring.MetricsCollector.Histogram | backend/app/utils/monitoring.py:368-375 | only the key's histogram changes: the value is appended and the newest 1000 values are kept |
| Schemas.ValidatePassword | backend/app/utils/schemas.py:15-19 | a password is accepted, unchanged, exactly when it has at least 8 characters, and refused with the registration message otherwise |
| Schemas.ValidateNewPassword | backend/app/utils/schemas.py:42-46 | a new password is accepted, unchanged, exactly when it has at least 8 characters, and refused with its own message otherwise |
| Schemas.AddressText | backend/app/utils/schemas.py:8 | an accepted address is stored as its local part, an '@' and its domain, so it is never empty |
| Schemas.ValidateFilename | backend/app/utils/schemas.py:129-133 | the validated name ends in ".pdf" and starts with the given name, which is kept as it is when it already ends so and gets ".pdf" appended otherwise |
| Schemas.ValidateFilenameIdempotent | backend/app/utils/schemas.py:129-133 | validating an already validated name changes nothing |
| Schemas.ValidateQuality | backend/app/utils/schemas.py:140-144 | a quality is accepted unchanged exactly when it lies in 1..100 |
| Schemas.ValidatePagesPerFile | backend/app/utils/schemas.py:165-169 | a page count is accepted unchanged exactly when it is at least 1 |
| Schemas.NewCompressRequest | backend/app/utils/schemas.py:135-144 | a request builds exactly when its quality is omitted or valid; an omitted quality is 85 |
| Schemas.NewSplitRequest | backend/app/utils/schemas.py:160-169 | a request builds exactly when its page count is omitted or valid; omitted fields are 1 page and prefix "split" |
| Schemas.RequestsWithinRange | backend/app/utils/schemas.py:135-169 | every request that builds, defaults included, passes its validator |
| Schemas.NewPdfFileBase | backend/app/utils/schemas.py:87-89 | a file record keeps its name and takes order index 0 unless one is given |
| FileUtils.Cleaned | backend/app/utils/file_utils.py:23-28 | the cleaned name has the same length, each invalid character replaced by '_' and every other character kept in place |
| FileUtils.Replace | backend/app/utils/file_utils.py:27 | replacing one character by another changes exactly the positions that held it |
| FileUtils.CleanFilename | backend/app/utils/file_utils.py:23-28 | the loop over the invalid characters yields the cleaned name |
| FileUtils.CleanedIsValid | backend/app/utils/file_utils.py:23-28 | a cleaned name holds no invalid character |
| FileUtils.CleanedKeepsValid | backend/app/utils/file_utils.py:23-28 | a name without invalid characters is returned unchanged |
| FileUtils.CleanedIdempotent | backend/app/utils/file_utils.py:23-28 | cleaning twice is cleaning once |
| PdfService.Message | backend/app/services/pdf_service.py:191-192 | only the disabled-OCR failure carries its fixed message |
| PdfService.JoinPathEndsWith | backend/app/services/pdf_service.py:40 | a joined path ends with the name, whatever the directory and whether or not the name is absolute |
| PdfService.JoinPathAbsolute | backend/app/services/pdf_service.py:148 | as written, joining an absolute name gives the name itself, which lies outside every relative output directory |
| PdfService.MergeOutputInDirectory | backend/app/services/pdf_service.py:148 | as corrected, every output name the validator accepts is written as a file ending in ".pdf" directly inside the output directory |
| PdfService.DotTail | backend/app/services/pdf_service.py:38 | a tail found is non-empty and no longer than the name |
| PdfService.DotTailFound | backend/app/services/pdf_service.py:38 | a tail found starts with a dot, holds no other dot and no '/', and ends the name |
| PdfService.DotTailNone | backend/app/services/pdf_service.py:38 | with no tail, the final component of the name has no dot |
| PdfService.SuffixSpec | backend/app/services/pdf_service.py:38 | the suffix is empty or a dot and at least one more character without another dot, ending the final component without being all of it |
| PdfService.SuffixNoDot | backend/app/services/pdf_service.py:38 | a final component without a dot has no suffix |
| PdfService.SaveUploadedFile | backend/app/services/pdf_service.py:33-64 | a save succeeds exactly when the write does, and stores the file under the fresh identifier plus the original suffix in the upload directory, recording the original name and the number of bytes received |
| PdfService.InsertByOrderMultiset | backend/app/services/pdf_service.py:138 | inserting a record adds exactly that record |
| PdfService.InsertByOrderSorted | backend/app/services/pdf_service.py:138 | inserting into records sorted by order index keeps them sorted |
| PdfService.SortByOrderSorted | backend/app/services/pdf_service.py:138 | the merge order is a rearrangement of the project's files by non-decreasing order index |
| PdfService.SortByOrderKeepsSorted | backend/app/services/pdf_service.py:138 | the sort is stable: files already in order, ties included, keep the given order |
| PdfService.TotalPagesRemoveAt | backend/app/services/pdf_service.py:145 | removing one file from the count subtracts its page count |
| PdfService.TotalPagesPermutation | backend/app/services/pdf_service.py:145 | the page total does not depend on the order of the files |
| PdfService.PathsOfMultiset | backend/app/services/pdf_service.py:138-141 | rearranging the records rearranges their paths |
| PdfService.MergePdfs | backend/app/services/pdf_service.py:131-161 | the merge succeeds exactly when every file in order-index order is readable and the output can be written; it then writes all their pages in that order to the corrected output path inside the output directory and counts them; otherwise the first unreadable file is named, or the output path when only the write fails |
| PdfService.MergedPageCount | backend/app/services/pdf_service.py:135-145 | the merged page count is the sum of the page counts of the project's files, in whatever order they were uploaded |
| PdfService.ChunksFlatten | backend/app/services/pdf_service.py:270-275 | the split files put back together are the document, page for page |
| PdfService.ChunksSizes | backend/app/services/pdf_service.py:270-275 | every split file has 1 to p pages, and all but the last exactly p |
| PdfService.ChunksCount | backend/app/services/pdf_service.py:270 | the number of split files is the page count divided by p, rounded up |
| PdfService.ChunkAt | backend/app/services/pdf_service.py:274-275 | split file k holds the pages from k * p up to min((k + 1) * p, n) |
| PdfService.SplitPaths | backend/app/services/pdf_service.py:278-279 | the output paths are `split_1.pdf`, `split_2.pdf`, ... in the output directory, in order |
| PdfService.SplitPdf | backend/app/services/pdf_service.py:261-294 | an unreadable input fails; a step of 0 fails as `range` does, a negative one gives no files; otherwise one file per chunk is written, in order, or the first failed write fails the operation |
| PdfService.CopyPages | backend/app/services/pdf_service.py:274-275 | the inner loop copies exactly the pages from lo up to hi |
| PdfService.CompressPdf | backend/app/services/pdf_service.py:163-186 | compression succeeds exactly when the input opens, the output can be saved and the input is not empty (the ratio divides by its size), reporting both sizes |
| PdfService.LeadingBlanks | backend/app/services/pdf_service.py:210 | the count of leading whitespace is maximal: the next character, if any, is not whitespace |
| PdfService.TrailingBlanks | backend/app/services/pdf_service.py:210 | the count of trailing whitespace is maximal: the character before, if any, is not whitespace |
| PdfService.Strip | backend/app/services/pdf_service.py:210 | with Python's `str.strip` whitespace set, the stripped text neither starts nor ends with whitespace and is empty exactly when the text was blank |
| PdfService.StripPadded | backend/app/services/pdf_service.py:210 | text with no whitespace at its ends, padded with whitespace on both sides, strips back to itself |
| PdfService.StripKeeps | backend/app/services/pdf_service.py:210 | text with no whitespace at its ends is kept, and stripping twice is stripping once |
| PdfService.OcrResultsAt | backend/app/services/pdf_service.py:197-211 | entry k is page k + 1 with its recognised text stripped |
| PdfService.ExtractTextOcr | backend/app/services/pdf_service.py:188-223 | switched off it fails with its message before opening the file; an unreadable file fails; otherwise one entry per page with its stripped text, numbered from 1 |
| PdfService.AddWatermark | backend/app/services/pdf_service.py:225-259 | the operation succeeds exactly when the input opens and the output can be written, and then every page, in order, is stamped with the same text; a failure writes nothing |
| PdfRouter.FindProject | backend/app/api/pdf_router.py:63-66 | the first project with that id owned by the user, or none exactly when there is no such project |
| PdfRouter.GetProject | backend/app/api/pdf_router.py:56-73 | a project is returned only to its owner; when the user owns no project with that id the answer is 404 "Projeto não encontrado" |
| PdfRouter.OwnedBy | backend/app/api/pdf_router.py:51-52 | exactly the user's own projects |
| PdfRouter.Window | backend/app/api/pdf_router.py:53 | the offset skips `skip` rows and at most `limit` follow, in order |
| PdfRouter.WindowsTile | backend/app/api/pdf_router.py:53 | an offset-and-limit page followed by the next one is the page of their combined size |
| PdfRouter.ListProjects | backend/app/api/pdf_router.py:43-54 | only the user's own projects are listed, at most `limit` of them: the page is the owned projects from position `skip` on, in table order, and is as long as the limit and the rest allow |
| PdfRouter.ProjectPagesTile | backend/app/api/pdf_router.py:43-54 | two consecutive pages of projects together are the page of their combined size, so paging lists each owned project once, in order |
| PdfRouter.OperationsOf | backend/app/api/pdf_router.py:327-328 | exactly the operations the user started, never more than the table holds |
| PdfRouter.ListOperations | backend/app/api/pdf_router.py:319-330 | only the user's own operations are listed, at most `limit` of them: the page is the user's operations from position `skip` on, in table order, as long as the limit and the rest allow, and all of them from offset 0 with a large enough limit |
| PdfRouter.OperationPagesTile | backend/app/api/pdf_router.py:319-330 | two consecutive pages of operations together are the page of their combined size |
| PdfRouter.DownloadProjectOutput | backend/app/api/pdf_router.py:259-287 | the download is served exactly when the user owns the project and its non-empty output path exists, as "application/pdf"; every refusal is a 404 |
| PdfRouter.HasPdfExtensionLower | backend/app/api/pdf_router.py:106 | the extension test is `filename.lower().endswith('.pdf')` |
| PdfRouter.FirstInvalid | backend/app/api/pdf_router.py:104-118 | the index of the first part that fails a check is at most the number of parts |
| PdfRouter.FirstInvalidSpec | backend/app/api/pdf_router.py:104-118 | every part before the index passes both checks and the part at it fails one |
| PdfRouter.NewRows | backend/app/api/pdf_router.py:124-137 | one record per part saved so far |
| PdfRouter.NewRowsAt | backend/app/api/pdf_router.py:124-134 | record j is part j's, with order index j and the next identifier |
| PdfRouter.SavedPaths | backend/app/api/pdf_router.py:121 | one written path per part saved so far |
| PdfRouter.SavedPathsAt | backend/app/api/pdf_router.py:121 | path j is where part j is written, under the name the service gives it |
| PdfRouter.UploadOrderIndices | backend/app/api/pdf_router.py:133 | the order indices of an upload are 0 .. n - 1 in part order, whatever the project already holds, and identifiers increase |
| PdfRouter.SaveOutcomeRows | backend/app/api/pdf_router.py:104-139 | an upload succeeds only when every part passes the checks, and then commits the records of all of them |
| PdfRouter.SaveOutcomeInvalid | backend/app/api/pdf_router.py:106-118 | the first failing part ends the upload with its 400 detail, after the parts before it were written |
| PdfRouter.SaveOutcomeUnwritable | backend/app/api/pdf_router.py:121 | a failed write of a valid first part is a 500 with nothing written |
| PdfRouter.SaveOutcomeAll | backend/app/api/pdf_router.py:104-139 | with every part valid and the directory writable, every part is written and recorded |
| PdfRouter.LastOrder | backend/app/api/pdf_router.py:167-171 | the order index a file ends with is that of the last entry naming it, and there is none exactly when no entry names it |
| PdfRouter.SetOrder | backend/app/api/pdf_router.py:168-171 | one update changes the order index of exactly the rows with that id in this project |
| PdfRouter.Reordered | backend/app/api/pdf_router.py:167-171 | the updates change no row count |
| PdfRouter.ReorderedEffect | backend/app/api/pdf_router.py:167-171 | after the updates, a row of this project named by some entry carries the index of the last entry naming it, and every other row is unchanged |
| PdfRouter.Database.constructor | backend/app/api/pdf_router.py:24-41 | an empty database: no projects, files, operations or stored files |
| PdfRouter.Database.CreateProject | backend/app/api/pdf_router.py:24-41 | a new draft project owned by the current user is appended, with a fresh id; nothing else changes |
| PdfRouter.Database.UploadFiles | backend/app/api/pdf_router.py:75-145 | a project the user does not own is 404 and more than 20 parts are 400, with no change; otherwise the outcome and the files written are those of SaveOutcome, and records are committed only on success |
| PdfRouter.Database.CommitRows | backend/app/api/pdf_router.py:136-139 | the records are appended and the id counter advances past them |
| PdfRouter.Database.ReorderFiles | backend/app/api/pdf_router.py:147-174 | a project the user does not own is 404 with no change; otherwise the files are reordered as Reordered says and the confirmation message is returned |
| PdfRouter.Database.ApplyOrders | backend/app/api/pdf_router.py:167-171 | the update loop leaves the files as Reordered says |
| PdfRouter.Database.StartOperation | backend/app/api/pdf_router.py:207-216 | a "processing" operation with a fresh id is appended |
| PdfRouter.Database.FinishOperation | backend/app/api/pdf_router.py:229-230 | only the latest operation's status, outputs and error change |
| PdfRouter.Database.CompleteProject | backend/app/api/pdf_router.py:224-226 | only that project changes: completed, holding its output name and path |
| PdfRouter.Database.MergeProjectPdfs | backend/app/api/pdf_router.py:176-257 | a project the user does not own is 404 and one without files is 400, with no change; otherwise the merge of its files by order index is recorded as MergeRecorded says, under the validated output name |
| PdfRouter.Database.MergeRows | backend/app/api/pdf_router.py:206-257 | a merge either completes the project and its operation and answers with the output path, page count and operation id, or marks the operation "error" with the text of the 500 it raises, which names the first unreadable file or, when every file reads, the output path that could not be written |
| PdfRouter.SaveParts | backend/app/api/pdf_router.py:104-121 | the loop ends with the outcome and the written paths SaveOutcome gives |
| PdfRouter.SaveEach | backend/app/api/pdf_router.py:104-121 | with every write succeeding, the loop ends with the outcome and the written paths SaveOutcome gives |
| PdfRouter.SavePart | backend/app/api/pdf_router.py:105-121 | a part with another extension or over 50 MB gives its 400; a valid part is written to its stored path, or the failed write gives 500 |
| PdfRouter.ProjectFiles | backend/app/api/pdf_router.py:196-198 | the service records of exactly the files of the project |
| Accounts.ResponseIgnoresHash | backend/app/api/user_router.py:12-17 | what the client is shown of a user never depends on the stored password hash |
| Accounts.NewUser | backend/app/api/auth_router.py:34-40 | the new row has the body's username, email and full name and the hash of its password, no bio, is active and is not a superuser |
| Accounts.RegisteredIsUnique | backend/app/api/auth_router.py:23-46 | after a registration that passed the check, its username and its email each belong to the new row alone |
| Accounts.RegisterAgainRefused | backend/app/api/auth_router.py:23-31 | once registered, the same username or the same email is refused |
| Accounts.CheckRegistration | backend/app/utils/schemas.py:6-19 | a registration body is accepted exactly when its e-mail is an address and its password has at least 8 characters; an invalid e-mail gives the validator's reason, otherwise a short password gives the password message; an accepted body carries the normalised, non-empty e-mail |
| Accounts.Login | backend/app/api/auth_router.py:48-84 | failed authentication is 401 with the Bearer challenge, an inactive user is 400, and exactly an active user gets a bearer token signed for their username with a 30-minute lifetime (1800 seconds) carrying their id, username, email and full name |
| Accounts.Refresh | backend/app/api/auth_router.py:86-100 | a refresh gives a new bearer token for the current user, valid 1800 seconds, without the user part |
| Accounts.RefreshMatchesLogin | backend/app/api/auth_router.py:69-100 | refreshing gives an active user the token that login gives, less the user part |
| Accounts.Updated | backend/app/api/user_router.py:39-42 | an update never changes the id, the username, the hash or the active and superuser flags |
| Accounts.CheckUpdate | backend/app/utils/schemas.py:21-25 | an update body is refused exactly when it sets an e-mail that is not an address, with the validator's reason; an accepted body sets the same fields, the e-mail normalised and never empty |
| Accounts.SetAll | backend/app/api/user_router.py:41-42 | the setattr loop applies the items in order |
| Accounts.ApplyFront | backend/app/api/user_router.py:41-42 | applying a leading item and then the rest is applying them all |
| Accounts.ApplySetItems | backend/app/api/user_router.py:40-42 | applying the set fields in turn gives the field-by-field update |
| Accounts.UpdatedFields | backend/app/api/user_router.py:40-42 | a field the request leaves out keeps its value and a field it sets takes the request's value |
| Accounts.UpdatedIdempotent | backend/app/api/user_router.py:40-42 | sending the same update twice changes nothing the second time |
| Accounts.UpdatedEmpty | backend/app/api/user_router.py:40-42 | an empty body changes nothing |
| Accounts.OwnEmailNoConflict | backend/app/api/user_router.py:27 | keeping one's own email never conflicts, whoever else holds it |
| Accounts.UpdateKeepsEmailsDistinct | backend/app/api/user_router.py:27-42 | an update that passes validation and the conflict check keeps every email in the table distinct |
| Accounts.OwnedProjectsExactly | backend/app/api/user_router.py:91-93 | the projects counted are exactly the user's own |
| Accounts.OwnOperationsExactly | backend/app/api/user_router.py:96-98 | the operations counted are exactly the user's own |
| Accounts.CountsByTypeExactly | backend/app/api/user_router.py:101-106 | the grouping has a key for each type among the user's operations and no other, holding how many have that type, at most their total |
| Accounts.CountOfTypePositive | backend/app/api/user_router.py:101-106 | a type's count is positive exactly when one of the user's operations has it |
| Accounts.GroupedTypes | backend/app/api/user_router.py:101-111 | the keys of the grouping are the types of the user's operations, each counted at least once |
| Accounts.Stats | backend/app/api/user_router.py:82-113 | as intended, the answer counts the user's own projects and operations and groups the operations by type: a type is a key exactly when the user has an operation of it, and its count is the number of the user's operations of that type, between 1 and the total |
| Accounts.StatsAsWrittenFails | backend/app/api/user_router.py:101-106 | as written the endpoint always fails with 500, while the intended one always answers |
| AppStartup.FirstUnbound | backend/app/api/auth_router.py:6-12 | the position of the first dependency a router's imports do not bind, every earlier one being bound, or none exactly when all are bound |
| AppStartup.Start | backend/app/main.py:14 | the application starts exactly when every router it imports binds all its dependencies; otherwise the error names a router and a dependency it uses but does not bind |
| AppStartup.StartAsWrittenFails | backend/app/api/auth_router.py:86-88 | as written, the start-up stops with a NameError for `get_current_active_user` in the authentication router |
| AppStartup.StartCorrected | backend/app/api/pdf_router.py:12 | with that name imported from the security module, as the PDF router does, the application starts |
| Accounts.UserTable.constructor | backend/app/api/auth_router.py:16-46 | a new table is empty and valid |
| Accounts.UserTable.Register | backend/app/api/auth_router.py:16-46 | a body failing validation is 422 with the validator's message and a taken username or normalised e-mail is 400, with no change; otherwise exactly the new row, with the normalised e-mail, is appended with the next id and its response returned |
| Accounts.UserTable.UpdateCurrentUser | backend/app/api/user_router.py:19-47 | an e-mail that is not an address is 422 and a conflicting one is 400, with no change; otherwise only the current user's row changes, to the field-by-field update with the normalised e-mail, and its response is returned |
| Accounts.UserTable.ChangePassword | backend/app/api/user_router.py:49-69 | a short new password is 422 and a wrong current password is 400, with no change; otherwise only the current user's hash changes, to the hash of the new password |
| Accounts.UserTable.DeleteCurrentUser | backend/app/api/user_router.py:71-80 | exactly the current user's row goes, the others stay in order, and the confirmation message is returned |
| Accounts.Without | backend/app/api/user_router.py:77 | the table loses exactly one row |
| Accounts.DeletedIsGone | backend/app/api/user_router.py:77-78 | after a deletion no row has the deleted id, and the rows before and after it remain in order |
| ProjectsPage.PdfOnlyExactly | frontend/src/pages/ProjectsPage.tsx:94 | the filter keeps exactly the dropped files whose type is "application/pdf" |
| ProjectsPage.PdfOnlyAppend | frontend/src/pages/ProjectsPage.tsx:94 | filtering keeps the order: filtering two batches is filtering each in turn |
| ProjectsPage.OnDrop | frontend/src/pages/ProjectsPage.tsx:93-96 | a drop keeps the files already selected, in front, and touches neither the projects nor the menu |
| ProjectsPage.OnDropAdds | frontend/src/pages/ProjectsPage.tsx:93-96 | after a drop the selection holds exactly the earlier files and the dropped PDF files |
| ProjectsPage.OnDropTwice | frontend/src/pages/ProjectsPage.tsx:95 | two drops select what one drop of both batches selects |
| ProjectsPage.RemoveChip | frontend/src/pages/ProjectsPage.tsx:268 | deleting chip i drops position i and keeps every other file in order; an index past the end removes nothing |
| ProjectsPage.RemoveChipMultiset | frontend/src/pages/ProjectsPage.tsx:268 | deleting a chip takes away one occurrence of its file and nothing else |
| ProjectsPage.CreateProject | frontend/src/pages/ProjectsPage.tsx:106-122 | a name that is blank once trimmed, with JavaScript's `trim` whitespace set, changes nothing; otherwise the dialog closes with its fields cleared, and the selection and the menu stay |
| ProjectsPage.CreateProjectPrepends | frontend/src/pages/ProjectsPage.tsx:109-118 | a created project is a draft without files named as typed, placed before every earlier project, which all stay |
| ProjectsPage.CreateProjectOnce | frontend/src/pages/ProjectsPage.tsx:107-119 | pressing create again on the cleared form does nothing |
| ProjectsPage.MenuClick | frontend/src/pages/ProjectsPage.tsx:124-127 | the menu opens for the clicked project |
| ProjectsPage.MenuClose | frontend/src/pages/ProjectsPage.tsx:129-132 | the menu closes and forgets its project |
| ProjectsPage.WithoutIdExactly | frontend/src/pages/ProjectsPage.tsx:136 | the filter keeps exactly the projects with another id |
| ProjectsPage.WithoutIdAbsent | frontend/src/pages/ProjectsPage.tsx:136 | with no project of that id nothing is removed |
| ProjectsPage.DeleteProject | frontend/src/pages/ProjectsPage.tsx:134-139 | the menu always closes, and with no selected project (or the empty id) the projects stay |
| ProjectsPage.DeleteProjectExactly | frontend/src/pages/ProjectsPage.tsx:134-139 | after deleting, exactly the projects with another id remain |
| ProjectsPage.MenuThenDelete | frontend/src/pages/ProjectsPage.tsx:124-139 | opening the menu on a project and deleting removes the projects with that id alone |
| ProjectsPage.StatusTextsDistinct | frontend/src/pages/ProjectsPage.tsx:158-165 | the three known statuses read differently, and none reads as unknown |
| ProjectsPage.StatusColorDefault | frontend/src/pages/ProjectsPage.tsx:149-156 | only completed and processing projects are coloured; a draft and an unknown status look alike |
| SettingsPage.Change | frontend/src/pages/SettingsPage.tsx:101-109 | the changed setting holds the new value, and the categories are the old ones plus the changed one |
| SettingsPage.ChangeKeepsOtherKeys | frontend/src/pages/SettingsPage.tsx:104-107 | the other settings of the category keep their values |
| SettingsPage.ChangeKeepsOtherCategories | frontend/src/pages/SettingsPage.tsx:102-103 | every other category is untouched |
| SettingsPage.ChangeIdempotent | frontend/src/pages/SettingsPage.tsx:101-109 | making the same change twice is making it once |
| SettingsPage.ChangeOverrides | frontend/src/pages/SettingsPage.tsx:101-109 | a later change of the same setting overrides an earlier one |
| SettingsPage.ChangesCommute | frontend/src/pages/SettingsPage.tsx:101-109 | changes of two different settings can be made in either order |
| ProfilePage.Initials | frontend/src/pages/ProfilePage.tsx:86-93 | the initials are at most two characters |
| ProfilePage.NonEmpty | frontend/src/pages/ProfilePage.tsx:88-89 | only non-empty words give a character |
| ProfilePage.FirstCharsOfNonEmpty | frontend/src/pages/ProfilePage.tsx:89-90 | the characters collected are the first characters of the non-empty words, one each and in order |
| ProfilePage.InitialsOfWords | frontend/src/pages/ProfilePage.tsx:86-93 | the initials are the upper-cased first characters of the first two non-empty words of the name, or fewer when it has fewer |
| ProfilePage.InitialsEmpty | frontend/src/pages/ProfilePage.tsx:86-93 | an empty name has no initials |
| ProfilePage.InitialsBlank | frontend/src/pages/ProfilePage.tsx:86-93 | a name of spaces alone has no initials |
| ProfilePage.JoinHasPiece | frontend/src/pages/ProfilePage.tsx:88 | every word of a split occurs whole, as a contiguous stretch, in the name, so a non-empty word's first character does |
| Text.Contains | frontend/public/sw.js:227 | `includes` holds exactly when the pattern occurs at some position |
| Text.NatToString | organizador_pdf.py:213 | a number prints as a non-empty run of decimal digits |
| Text.ParseNatToString | organizador_pdf.py:688 | printing a number and parsing it back gives the number |
| Text.Split | frontend/src/pages/ProfilePage.tsx:88 | `split` gives at least one piece, no piece holds the separator, and joining the pieces gives back the string |
| Text.SplitNoSeparator | organizador_pdf.py:688 | a string without the separator splits into itself alone |
| Text.SplitAfter | organizador_pdf.py:688 | splitting a separator-free prefix, the separator and a rest gives the prefix and then the pieces of the rest |
| Text.BasenameSpec | pdf_organizer/pdf_card.py:91 | `os.path.basename` holds no slash, ends the path, and is preceded by a slash unless it is the whole path, so it is the whole final component |
| Text.CaseMapping | frontend/src/pages/ProfilePage.tsx:91 | upper-casing leaves no lower-case letter and changes nothing but lower-case letters (and lower-casing the reverse); each is idempotent, and lower-casing an upper-cased text gives the lower-cased original |
| Text.SpaceSetsDiffer | frontend/src/pages/ProjectsPage.tsx:107 | JavaScript's `trim` and Python's `strip` differ only in the byte-order mark (JavaScript only) and U+001C to U+001F and U+0085 (Python only) |
| Lists.DedupAppendPrefix | organizador_pdf.py:575-577 | appending only grows the list at its end: the old entries keep their places |
| Lists.DedupAppendMembers | organizador_pdf.py:575-577 | after the append the list holds exactly the old entries and the batch's |
| Lists.DedupAppendNoDup | organizador_pdf.py:576 | a duplicate-free list stays duplicate-free, even when the batch repeats a path |
| Lists.DedupAppendConcat | organizador_pdf.py:575-577 | adding two batches one after the other is adding their concatenation |
| Lists.IndexOf | organizador_pdf.py:591 | `list.index(x)` is the first position holding x |
| Lists.Swap | organizador_pdf.py:632-635 | the two entries trade places and every other entry stays |
| Lists.SwapPermutes | organizador_pdf.py:632-635 | swapping keeps the entries, and swapping back restores the list |
| Lists.RemoveAt | organizador_pdf.py:594 | `pop(i)` removes position i and shifts the rest down by one |
| Lists.RemoveAtMultiset | organizador_pdf.py:594 | deleting removes exactly one occurrence of the deleted entry |
| Lists.Move | organizador_pdf.py:717-726 | the pop-and-insert reorder keeps the length |
| Lists.MovePermutes | organizador_pdf.py:717-726 | the reorder is a permutation |
| Lists.MoveKeepsOthers | organizador_pdf.py:717-726 | the dragged entry lands at the adjusted index, and without it the list reads as before |
| Lists.MoveLandsBeforeTarget | organizador_pdf.py:721-726 | a dragged entry lands immediately before the entry it was dropped on |
| Lists.MoveNoDup | organizador_pdf.py:717-726 | the reorder keeps a duplicate-free list duplicate-free |
| Ordering.SortByKeySorted | backend/app/utils/monitoring.py:386 | `sorted(tags.items())` gives the same items with strictly increasing keys |
| Ordering.SortedByKeyUnique | backend/app/utils/monitoring.py:386 | two key-sorted lists holding the same items are the same list |
| Ordering.LessTotal | backend/app/utils/monitoring.py:386 | Python's string order ranks any two different strings one way or the other |
| Ordering.SortSorted | backend/app/utils/monitoring.py:412 | `sorted(values)` is a non-decreasing rearrangement of the values |
| Ordering.SortSameElements | backend/app/utils/monitoring.py:412-414 | the sorted list has the same elements, the least first and the greatest last |
| Pdf.Read | organizador_pdf.py:529 | opening a file with the reader succeeds exactly for an existing, parsable file, and gives its pages |
| Pdf.FirstUnreadable | organizador_pdf.py:778-779 | the first file the reader cannot open, with every file before it readable, or none exactly when all are readable |
| Pdf.ConcatAppend | organizador_pdf.py:778-781 | the pages of two lists of files, merged, are the pages of the first list followed by those of the second |
| Pdf.ConcatLength | organizador_pdf.py:526-532 | when every file can be read the merged output has exactly the counted number of pages |

## Left out

- Input and output. Network access, Cache Storage, IndexedDB, localStorage, files on disk, the database session and HTTP routing are abstract maps, sequences or parameters. Fetch outcomes are inputs that either resolve with a response or throw.
- Concurrency, timers and asynchrony:
  - the service worker's background refresh is a separate explicit step;
  - the analytics flush is two steps (taking the queue, then applying the network result);
  - the analytics flush interval, `throttle`, and overlapping flushes are not modelled;
  - of the desktop merge worker, only the body of its `run` is modelled, not its thread handling.
- Floating point:
  - progress percentages use integer division, and only their bounds and the final 100 are claimed;
  - sizes in MB, compression ratios, average durations, error rates and the watermark opacity range are not modelled;
  - `formatFileSize` on the projects page uses `Math.log` and is not modelled.
- PDF, image and OCR libraries. A PDF is a page sequence with a readable flag, and OCR text is an input. Compression, watermarks, thumbnails (`generate_thumbnail`) and metadata extraction (`extract_pdf_metadata`) are not modelled.
- In the backend routers, the compress, watermark and split endpoints are not modelled, because their bodies are empty stubs (backend/app/api/pdf_router.py:289-317).
- Password hashing, JWT creation and `authenticate_user`: their results are parameters, because their code is not part of this model.
- The refresh endpoint is modelled as evidently intended. As written, its dependency `get_current_active_user` is never imported (backend/app/api/auth_router.py:88), so importing the authentication router fails and the application does not start at all (see "Findings").
- Start-up: of a router's top level only the names its `Depends(...)` dependencies use are tracked, and of its imports only the names those need. The security module that defines the dependencies is not part of this model.
- The `WWW-Authenticate` header of the 401 answer is a flag on the error.
- Error bodies for 422 validation failures are the validator's message only.
- AuthStore.ErrorMessage: takes `detail` as text. For a 422 FastAPI sends `detail` as a list of error objects, and `detail || fallback` then stores that list as the error; an `Option<string>` cannot hold it, so a 422's detail enters the model as absent (the fallback is shown) or as some text.
- The rules of `EmailStr` (which texts are addresses, and how an address is normalised) belong to the address validator library, so its verdict is a parameter.
- When a registration body fails both the e-mail and the password checks, the source's 422 lists both errors. The model reports the e-mail's.
- An explicit `null` email in a profile update is not distinguished from an absent one.
- Timestamps (`member_since`, `created_at`, analytics timestamps) are left out or taken as a `now` parameter.
- The database defaults of a new user (active, not a superuser) are taken as given, because backend/app/models/user.py is not part of this model.
- Cascade deletion of a user's projects and operations is not modelled.
- Upper-casing is ASCII only.
- Path joins follow pathlib in that an absolute name replaces the directory. The collapsing of repeated slashes and of "." components in a path's text is not modelled.
- The service worker's inline offline page is represented by its title, not its full HTML.
- Analytics fields that only carry browser context (url, referrer, user agent) are left out.
- Analytics: `trackUserAction`, `trackPerformance`, `trackError`, `trackFeatureUsage` and `trackConversion` are not modelled. Each of them only calls `track` with a fixed event name.
- Analytics: `getMetrics` and `setEnabled` are not modelled.
- Queries without an ORDER BY (the project and operation lists, a project's files) are taken in table order. An ORDER BY on order index is taken as a stable sort of the table order, so files with the same order index, which every second upload to a project produces, are merged in the order they were inserted; SQL leaves the order of such ties unspecified.
- Reorder requests are taken as already typed id and index pairs. Negative `skip` and `limit` values are not modelled.
- The sample data on the projects and settings pages is not modelled.
- In the backend file utilities, only `clean_filename` is modelled. Hashing, copying, moving, deleting and free-space checks are plain file-system I/O, so they are left out.
- Monitoring: the timing decorator, the structured logger, `get_stats`, system metrics from psutil, `TimerContext` and the concrete health-check functions are not modelled. Check results are inputs.
- Widgets, style sheets, dialogs, drag pixmaps and previews are not modelled. The desktop window's `closeEvent` is not modelled.
- In `card_drop_event`, the nearest-centre search for the drop target uses floating point. The target index is an input.
- The authentication store's generic rethrow of a non-HTTP error is not modelled.
- AuthStore.Store.Login: the refresh the interceptor runs after a 401 on the login is the corrected one. As written, a 401 on that refresh POST loops as RefreshLoopsOn401 states.
- AuthStore.Store.Register: the register POST's own pass through the interceptor is not modelled; its failure goes straight to the catch. The backend's register endpoint answers 400 or 422, never 401 (backend/app/api/auth_router.py:16-46).
- ProfilePage.Initials: takes a word's first character whole. JavaScript's `charAt(0)` takes one UTF-16 code unit, so for a word starting with a character outside the Basic Multilingual Plane the source keeps half of a surrogate pair.
- The logout route is only its fixed message.
- The 401 interceptor's redirect to `/login` is not modelled. Its only effect outside the store is navigation.
- The notification click handler's `event.notification.close()` (frontend/public/sw.js:362) is not modelled. It only dismisses the notification on screen.
- Cache Storage calls (`caches.open`, `put`, `match`, `delete`, `addAll`) never fail in the model, except that `addAll` fails as a whole when one of its fetches throws or answers a status that is not ok.
- Monitoring durations and timestamps are natural numbers, not floating-point seconds. The metrics collector's gauge values and histogram samples (backend/app/utils/monitoring.py:363-375), floats in the source, are integers.
- In the single-file organizer's drop handler, the card number is parsed from the drag text by `int()` (organizador_pdf.py:688). Python also accepts surrounding spaces, a sign and non-ASCII digits, and raises on any other text. The model accepts only ASCII decimal digits and ignores every other drop rather than raising.
- Push payloads that are not valid JSON are not modelled, because the source does not guard `event.data.json()`.
- In the desktop main window, when the last file is removed or the list is cleared, `_atualizar_interface` returns before refreshing the sidebar totals. They keep their old values. The model follows the code, and the lemmas about the totals state it.

## Findings

| source | as written | input that shows it | evidently intended | confidence | as-written member | corrected member |
|---|---|---|---|---|---|---|
| backend/app/api/user_router.py:101-106 | the per-type count is taken from `db.func.count`, but a SQLAlchemy session has no `func` attribute, so the query raises and every request ends in a 500 | any `GET /stats` by an authenticated user | count with SQLAlchemy's `func.count`, answering the user's project and operation totals and the operations grouped by type | high, not executed | Accounts.StatsAsWritten, Accounts.StatsAsWrittenFails | Accounts.Stats |
| frontend/src/store/authStore.ts:132-174 | the refresh POST goes through the same response interceptor, and its configuration is not marked `_retry`, so a 401 on it makes the interceptor call `refreshToken` again with the unchanged token before any `catch` runs | a stored token the server has expired, so every refresh POST is answered 401 | a refresh that fails, a 401 included, logs the user out | high, not executed | AuthStore.RefreshAsWritten, AuthStore.RefreshLoopsOn401 | AuthStore.Store.RefreshToken, AuthStore.RefreshIntended |
| backend/app/services/pdf_service.py:148 | the output path is `output_dir / output_filename` with the client's name, which the validator only completes with ".pdf" (backend/app/utils/schemas.py:129-133); pathlib drops the directory before an absolute name | a merge request whose `output_filename` is "/tmp/x.pdf": the file is written at /tmp/x.pdf, and that path is stored and returned | the merged file is written inside the output directory | high, not executed | PdfService.JoinPath, PdfService.JoinPathAbsolute | PdfService.MergeOutputPath, PdfService.MergeOutputInDirectory |
| backend/app/api/auth_router.py:86-88 | `Depends(get_current_active_user)` is evaluated when the module is imported, but auth_router never imports that name (its imports are at lines 6-12), and backend/app/main.py:14 imports auth_router | starting the application: the import raises NameError | auth_router imports `get_current_active_user` from the security module, as the other two routers do, and the application starts | high, not executed | AppStartup.StartAsWrittenFails | AppStartup.StartCorrected |
