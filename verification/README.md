# Verified models of GNOME Settings

This project models the parts of GNOME Settings whose behaviour is decided by state machines and
algorithms rather than by widgets, and proves properties of them with Dafny 4.11. `dafny verify
dfyconfig.toml` checks everything.

| module (file) | what it models |
|---|---|
| ThreadQueue | the single-worker task queue of the background items, as an interleaved step system |
| IdleQueue | the queue from the background loader thread to the main loop and its idle source |
| Thumbnails | a background item's thumbnail cache and the paintables that share it |
| BackgroundItem, BackgroundFile, BackgroundNodes, BackgroundLoader | background items, and saving them to and loading them from XML |
| BackgroundSettings | choosing a background: settings written, defaults cleaned up, item read back |
| StorageKeys, ObjectStorage | the once-only object cache and its start/finish protocol |
| Navigation, NavigationEnds, NavigationHistory, NavigationShell | the window and the panel list activating each other, and the back history |
| SearchMatch, ShellSort | the two search matchers, the comparator, the sorted store and the result list |
| LaunchedSearch | the window that the search provider starts: what its command line delivers, and which rows it shows |
| DecimalText, ColorKeys | padded decimal numbers, and sort keys that flatten a tuple into a string |
| ColorExpansion, ColorRows | the re-entrant expand/collapse protocol, and keeping profile rows in step |
| GammaTable | resampling a lookup table to the size of the gamma table |
| LogMask | masking of values in log messages |
| Text | strcmp, strstr and NULL strings |

Code that changes state in place is a class or a method with loops, proved equal to a function of its old
state; the theorems are about those functions, over every input, interleaving or run. Events of other
threads and of the user are the actions of a step system, and a run is any sequence of them. Strings are
sequences of characters, one for each byte where order matters. Folding of text, what is alphanumeric, which
files exist, what a D-Bus call returns and when two files or colours are the same are parameters.

Where a promised property does not hold of the code, the exact condition under which it does is proved:

- Idle queue: an item can be left queued with no idle source, exactly when a push lands between reading the
  queue length and clearing the id (`StrandsIffPushInWindow`, `StrandedWitness`).
- Navigation ends for every choice of visibilities that a window can have, with its rows in the order they have,
  exactly when no panel has Privacy as its parent while Privacy itself is replaced by System (`EndsIffAcyclic`,
  `WindowRunsEndIff`); then it ends from every state (`OpenEnds`, `RowEnds`). That a visible row is never list-hidden
  is proved (`RunsEnd`) but not needed for it.
- Back history: two equal neighbours appear exactly when "back" pops a panel that cannot be opened while the
  entry behind it is the current panel (`RunsAlternateIff`), and this does happen (`CollidingRun`).
- "Back" shortens the history by exactly one unless opening the popped panel makes the list open another one. That
  happens for a list-hidden panel, and also for one whose row opens a parent panel: both are pushed straight back
  (`BackDropsOne`, `HiddenPanelIsPushedBack`). So after Displays was opened in a new window no number of "back"s leaves
  the panel that the list opened in its place (`TrappedRun`, `TrappedWitness`).
- After a panel is opened, the list remembers the panel that is open exactly when that is the only panel on the way
  that the list shows (or the list hides them all and remembered it before, `ListAgreesIff`). So a panel that the list
  shows and whose parent Privacy can be opened is remembered while another one, normally Privacy, is open; a System
  subpage is replaced by System, and where the list shows System and System has no parent the two agree
  (`ListedPanelAgreesIff`).
- Matchers: they agree on all rows exactly when every term has no white space at its ends or begins such a term of
  the list (`AgreeIffSolid`).
- Sort keys: the text order of creation times is right from -1, and not only from 0, up to twelve digits, and on
  no larger interval around zero (`CreatedOrderIff`). Each device's rows stand together exactly when no two devices
  have the same base key, or base keys of which one continues the other by a text that falls between the suffixes
  (`GroupedIffToldApart`); both do happen for devices with different ids (`EqualKeysWitness`, `PrefixWitness`).
  Unlike the comment at panels/color/cc-color-profile.c:387-392 suggests, profiles without a data source sort before
  calibration profiles, and equally old ones by descending title.
- Expanding: the panel shows the profiles of a collapsed device exactly when a device that the filter still names is
  removed and comes back (`ShownIffExpanded`, `ComesBackWitness`).
- Choosing a background makes it the current one exactly when the settings can express it. They never store that a
  location is missing: an item without a picture needs an empty picture there already, and an item that flags a dark
  picture and lacks it must also lack the picture, and find an empty dark one (`ChosenIsCurrentIff`). Files with
  "(none)" make items that fail either part (`NoPictureWitness`, `DarkFlagWitness`).
- A thumbnail from the cache is what rendering again would give exactly when neither the item nor the geometry of the
  first monitor has changed; neither is recorded with it (`HitIsRecomputation`, `StaleHitWitness`).
- A search that the search provider hands to the window arrives unchanged exactly when it contains no single quote and
  no per cent sign (`ArrivesIff`, `ApostropheWitness`, `PercentWitness`). The window then shows exactly the provider's
  results if and only if none of them is hidden from its search list, as six panels are (`ShowsResultsIff`,
  `HiddenResultWitness`).
- Loading undoes saving exactly when the name, every flagged colour and any source address are non-empty and
  unchanged by stripping, and any picture has a local path that names it and still exists (`LoadUndoesSave`). An item
  without a name comes back blank (`NamelessIsLost`), which is right only if it was otherwise blank.
- Loading a wallpaper crashes the program exactly when a node before the first name or file name without text is a
  style whose child has no text, or a name without a language that follows a name, while the user has languages
  (`WallpaperCrashesIff`). Wallpapers of a file are told apart by their untranslated name and their picture, provided
  the names contain no `#` (`SameIdIff`, `HashedNameWitness`).
- Masking: values look alike exactly when shape, ends and separators agree, for values without `#` (`LookAlikeIff`,
  `HashWitness`).

## Model

| member | source | states |
|---|---|---|
| ThreadQueue.StepKeepsInv | panels/background/cc-background-item.c:107-157 | every step of every submitter and worker keeps: the mutex has one holder, `thread` names the one worker that has not decided to exit, and submitted = finished + in hand + queued |
| ThreadQueue.Safety | panels/background/cc-background-item.c:107-157 | in every interleaving tasks complete in submission order, each once, at most one at a time; when the mutex is free a non-empty queue has exactly one live worker and `thread` names it |
| ThreadQueue.StuckIffQuiescent | panels/background/cc-background-item.c:107-157 | no deadlock: nothing but a new submission can happen if and only if all tasks ran, the queue is empty, `thread` is NULL and every worker is gone |
| ThreadQueue.StepLosesWeight | panels/background/cc-background-item.c:112-135 | every step other than a new submission lowers a measure on queue length and thread positions |
| ThreadQueue.Drains | panels/background/cc-background-item.c:107-157 | once submissions stop every run is bounded, and it can only stop with every submitted task executed |
| ThreadQueue.SubmitDuringExit | panels/background/cc-background-item.c:112-156 | a submission after an exiting worker cleared `thread` but before it returned gets a new worker |
| ThreadQueue.WorkQueue.RunInThread | panels/background/cc-background-item.c:138-157 | the task goes to the tail, and a thread is created exactly when `thread` was NULL |
| ThreadQueue.WorkQueue.RunInThreadWorker | panels/background/cc-background-item.c:107-136 | undisturbed, the worker executes the whole queue in order and clears `thread` |
| IdleQueue.EmittedInOrder | panels/background/cc-background-xml.c:110-145 | in every interleaving emitted followed by queued is the order of the pushes |
| IdleQueue.AtomicAlwaysPending | panels/background/cc-background-xml.c:110-145 | if check and clear were one step, a waiting item would always have an idle source that runs again |
| IdleQueue.AtomicDrains | panels/background/cc-background-xml.c:110-145 | in that form the main loop emits everything in a bounded number of steps |
| IdleQueue.StrandsIffPushInWindow | panels/background/cc-background-xml.c:110-145 | as written, a schedule never strands an item if and only if no push lands between the length check and the clear |
| IdleQueue.StrandedWitness | panels/background/cc-background-xml.c:127-132 | a reachable state with an item queued, id 0 and no source |
| IdleQueue.NextPushRecovers | panels/background/cc-background-xml.c:136-145 | the next push arms a new source, and the stranded item goes out first |
| IdleQueue.BackgroundXml.EmitAddedInIdle | panels/background/cc-background-xml.c:136-145 | pushes at the tail and arms a source only if none is |
| IdleQueue.BackgroundXml.IdleEmit | panels/background/cc-background-xml.c:110-134 | an undisturbed dispatch emits the head and asks to run again exactly when the queue is not empty |
| Thumbnails.StepKeepsInv | panels/background/cc-background-paintable.c:65-145 | every event keeps: slots and results match their recorded format, and a task that is not cancelled has its owner's current cancellable, size and scale |
| Thumbnails.CachedAsRecorded | panels/background/cc-background-item.c:330-393 | in every interleaving a cached thumbnail was made by a request with exactly the recorded size, scale and variant |
| Thumbnails.HitIsRecomputation | panels/background/cc-background-item.c:330-340 | a hit equals what rendering again would give if and only if neither the item's look nor the first monitor's geometry has changed |
| Thumbnails.StaleHitWitness | panels/background/cc-background-item.c:330-348 | a run after which the cache is hit although the geometry has changed |
| Thumbnails.InstallsCurrentScale | panels/background/cc-background-paintable.c:65-97 | whatever is installed was asked for with the paintable's current size and scale, and goes to its variant's texture |
| Thumbnails.StaleNeverInstalled | panels/background/cc-background-paintable.c:217-226 | nothing asked for before a change of scale is ever installed or cached after it |
| Thumbnails.DisposedNeverInstalls | panels/background/cc-background-paintable.c:131-145 | the same for disposing of the paintable |
| Thumbnails.UpdateServesWhatIsPainted | panels/background/cc-background-paintable.c:99-129 | after an update exactly one live task serves each variant that is painted and no other |
| Thumbnails.UpdateAsksForThePresent | panels/background/cc-background-item.c:327-356 | what is asked for has the present look, geometry, size and scale, and is answered from the cache exactly when the slot holds that size and scale |
| Thumbnails.ScaleChangeAsksAgain | panels/background/cc-background-paintable.c:217-226 | after a real change of scale exactly one live task serves each painted variant, at the new scale, if anything was asked before |
| Thumbnails.OtherEvents | panels/background/cc-background-paintable.c:190-236 | what is painted, an unchanged scale, the worker's result and disposal change just what they concern |
| Thumbnails.FinishedIsCached | panels/background/cc-background-item.c:374-393 | in every interleaving a finished rendering that was not cancelled is just what its slot holds, with its format |
| Thumbnails.Item.GetThumbnailAsync | panels/background/cc-background-item.c:301-362 | a hit answers at once from the slot, a miss starts a task with the same format |
| Thumbnails.Item.GetThumbnailFinish | panels/background/cc-background-item.c:364-394 | a cancelled or failed task yields nothing and caches nothing; a new picture is cached with its format |
| Thumbnails.Item.UpdatePaintable | panels/background/cc-background-paintable.c:99-129 | cancels the old requests before starting new ones |
| Thumbnails.Item.SetScaleFactor | panels/background/cc-background-paintable.c:217-226 | a new scale asks again only if anything was asked before |
| Thumbnails.Item.Callback | panels/background/cc-background-paintable.c:65-97 | the callback installs what finishing yields, in the texture of its variant |
| BackgroundItem.SettersKeepFaithful | panels/background/cc-background-item.c:469-580 | an item changed through its setters has initial values wherever a flag is missing, and always flags its uri |
| BackgroundItem.NewIsFaithful | panels/background/cc-background-item.c:921-971 | a new item is like that |
| BackgroundItem.SetterOutcome | panels/background/cc-background-item.c:469-667 | each setter changes its property, with an empty location stored as none, and its flag, and nothing else |
| BackgroundFile.EnumRoundTrip | panels/background/cc-background-xml.c:77-108 | reading the nick of an enumeration value gives the value back |
| BackgroundFile.BlanksDoNotMatter | panels/background/cc-background-xml.c:184-186 | white space and comments between elements do not influence what is loaded |
| BackgroundFile.SavedLoads | panels/background/cc-background-xml.c:184-268 | what loading the saved nodes leaves: everything that was written, or what came before the first name or file name without text |
| BackgroundFile.LoadedIff | panels/background/cc-background-xml.c:184-268 | that is the saved item without its dark variant if and only if the conditions that can be checked before saving hold |
| BackgroundFile.LoadOfSaved | panels/background/cc-background-xml.c:149-334 | what loading the file signals in any case |
| BackgroundFile.LoadUndoesSave | panels/background/cc-background-xml.c:149-334 | loading a saved file into a fresh object signals exactly the saved item without its dark variant if and only if name, flagged colours and source are trimmed and non-empty, and its picture can be located and exists |
| BackgroundFile.NamelessIsLost | panels/background/cc-background-xml.c:221-246 | an item saved without a name comes back blank, whatever else it had |
| BackgroundFile.LoadingAgainAddsNothing | panels/background/cc-background-xml.c:298-330 | loading any file again signals nothing, and as many items are signalled as identifiers are new |
| BackgroundNodes.WallpaperLoads | panels/background/cc-background-xml.c:187-287 | for every list of nodes that does not crash: picture, dark picture, style, colours, source and flags are those of the last nodes that give them before the first stop, and the name follows the user's languages |
| BackgroundNodes.WallpaperCrashesIff | panels/background/cc-background-xml.c:227-264 | loading crashes if and only if, before the first stop, a style has a child without text, or a name without a language follows a name and the user has languages |
| BackgroundNodes.EnumTexts | panels/background/cc-background-xml.c:95-108 | nicks give their values, the two old spellings 1 and 2, any other text of a shading 0 |
| BackgroundNodes.SameIdIff | panels/background/cc-background-xml.c:307-318 | two wallpapers of a file have one identifier if and only if their untranslated names and pictures are the same, if these names contain no `#` |
| BackgroundNodes.HashedNameWitness | panels/background/cc-background-xml.c:307-318 | two different ones with one identifier otherwise |
| BackgroundLoader.LoadWallpaper | panels/background/cc-background-xml.c:167-274 | the item and strings are what the nodes before the first one without a needed text say: each property that of the last node that gives it, the dark picture that of the last dark file name, the name that of the last node in a user's language or else the first one without a language |
| BackgroundLoader.LanguageMatches | panels/background/cc-background-xml.c:234-241 | finds whether the node's language is one of the user's |
| BackgroundLoader.Save | panels/background/cc-background-xml.c:537-606 | writes name, file, placement, shading, colours and source by flag, in this order |
| BackgroundLoader.BackgroundXml.LoadXmlInternal | panels/background/cc-background-xml.c:149-334 | signals what the specification says, and returns true exactly when something was signalled |
| BackgroundLoader.BackgroundXml.AddWallpaper | panels/background/cc-background-xml.c:276-328 | skips an item whose picture is missing or whose identifier is known |
| BackgroundSettings.ResetChangesNoValue | panels/background/cc-background-panel.c:356-402 | the clean-up changes no effective value, and drops exactly the user values equal to their defaults, only when the uri is the default one |
| BackgroundSettings.ChoiceIsStored | panels/background/cc-background-panel.c:404-458 | after a choice every key has exactly the chosen value and nothing is pending |
| BackgroundSettings.ChoiceValues | panels/background/cc-background-panel.c:404-458 | key by key what a choice leaves: missing texts keep the old value, the picture stands in for a dark one where asked, and the placement is also written over "none" when there is a picture |
| BackgroundSettings.ChoosingAgainChangesNothing | panels/background/cc-background-panel.c:404-458 | choosing the same item again changes no value |
| BackgroundSettings.ChoosingNothing | panels/background/cc-background-panel.c:404-416 | without an item nothing is written, applied or cleaned up |
| BackgroundSettings.SettersKeepChoosable | panels/background/cc-background-item.c:493-580 | every item made and changed through its properties, with texts as colours, can be chosen in the theorems below |
| BackgroundSettings.ChosenReadsBack | panels/background/cc-background-panel.c:320-355 | what is read back says what the chosen item says, but a location the item lacks is the old one, or its picture in place of a dark one |
| BackgroundSettings.ChosenIsCurrentIff | panels/background/cc-background-item.c:1095-1135 | the chosen item compares equal to the one read back if and only if a missing picture meets an empty old value, and a flagged and missing dark picture meets no picture and an empty old value |
| BackgroundSettings.DarkFlagWitness | panels/background/cc-background-item.c:508-521 | an item made by its own setters, with a picture, that is not current after it was chosen |
| BackgroundSettings.NoPictureWitness | panels/background/bg-wallpapers-source.c:64-78 | another one, without a picture and without a dark flag |
| BackgroundSettings.FlaggedDifferenceTells | panels/background/cc-background-item.c:1101-1132 | a flagged property that differs, any of the six, makes the comparison false whatever else agrees |
| BackgroundSettings.UnflaggedDoesNotMatter | panels/background/cc-background-item.c:1101-1132 | changing what is not flagged never matters |
| BackgroundSettings.AgreementSuffices | panels/background/cc-background-item.c:1101-1134 | an item with some flag that agrees on all flagged properties compares equal |
| BackgroundSettings.CompareItems | panels/background/cc-background-item.c:1095-1135 | the early returns compute that comparison |
| BackgroundSettings.CompareFiles | panels/background/cc-background-item.c:1064-1081 | two missing locations are equal, one missing is not, otherwise the files decide |
| BackgroundSettings.Store.ApplyAll | panels/background/cc-background-panel.c:452-453 | pending changes become the user's values |
| BackgroundSettings.Store.ResetLoop | panels/background/cc-background-panel.c:372-399 | the loop stops at once at a uri that is not the default, and otherwise resets every checked default |
| BackgroundSettings.Store.ResetSettingsIfDefaults | panels/background/cc-background-panel.c:356-402 | applies the resets only if the loop completed |
| BackgroundSettings.Store.SetBackgroundTo | panels/background/cc-background-panel.c:404-458 | writes, applies and cleans up as specified; without an item nothing changes |
| BackgroundSettings.Store.WriteStyle | panels/background/cc-background-panel.c:434-447 | placement is written if flagged, or if there is a picture and the old style is none; shading if flagged |
| BackgroundSettings.Panel.ReloadCurrentBg | panels/background/cc-background-panel.c:318-354 | builds the current item from the six values with every flag set |
| BackgroundSettings.Panel.OnChosen | panels/background/cc-background-panel.c:460-472 | sets both settings objects, the lock screen's without a dark picture, and reloads |
| StorageKeys.KeySharedIff | shell/cc-object-storage.c:240 | with comma-free names and paths two requests share a key if and only if they agree on name, path and interface, whatever their buses |
| StorageKeys.ValidKeysAreInjective | shell/cc-object-storage.c:318 | for valid D-Bus names and paths the key identifies the request up to its bus |
| StorageKeys.CommaWitness | shell/cc-object-storage.c:371 | without the hypothesis two requests collide |
| StorageKeys.NeverADefaultKey | shell/cc-object-storage.h:27-30 | no proxy key is a default storage key |
| StorageKeys.KeyText | shell/cc-object-storage.c:243 | the text of a key |
| ObjectStorage.SingleAssignment | shell/cc-object-storage.c:158-178 | a stored object stays the object of its key for the rest of every run |
| ObjectStorage.SameObjectForAll | shell/cc-object-storage.c:221-269 | all successful creators of a key are given the one stored object |
| ObjectStorage.FinishFailsIffStoredMeanwhile | shell/cc-object-storage.c:386-399 | the finish assertion fails if and only if the key was absent at the start and was stored in between |
| ObjectStorage.DisciplineSuffices | shell/cc-object-storage.c:286-290 | callers that keep the documented discipline never make an assertion fail |
| ObjectStorage.OverlapFails | shell/cc-object-storage.c:391-399 | two overlapping uncached tasks of a key never both finish successfully without a failed assertion |
| ObjectStorage.SyncOutcome | shell/cc-object-storage.c:222-273 | a stored object is given; an absent one is stored and given if it can be made |
| ObjectStorage.StartOutcome | shell/cc-object-storage.c:292-336 | a started task is ready with the stored object, or pending |
| ObjectStorage.FinishOutcome | shell/cc-object-storage.c:354-410 | finishing gives the stored object or stores and gives the new one; a failed task gives and stores nothing |
| ObjectStorage.ReturnOutcome | shell/cc-object-storage.c:73-100 | the thread's result becomes of its task alone, and a cancelled task fails |
| ObjectStorage.Storage.AddObject | shell/cc-object-storage.c:157-178 | stores an absent key |
| ObjectStorage.Storage.CreateSync | shell/cc-object-storage.c:221-269 | returns the stored object, or stores the new one, or fails and stores nothing |
| ObjectStorage.Storage.Create | shell/cc-object-storage.c:291-350 | a stored key makes a cached task that is ready at once |
| ObjectStorage.Storage.CreateFinish | shell/cc-object-storage.c:353-408 | a failed task stores nothing; otherwise the result is the stored object |
| Navigation.SetActiveKeeps | shell/cc-window.c:325-429 | opening a panel, with all that it re-enters, keeps neighbours in the trail distinct, only lengthens the history, never returns to the search view and shows no list-hidden row |
| Navigation.RowActivatedKeeps | shell/cc-panel-list.c:515-542 | the same for activating a row |
| Navigation.FirstVisibleIs | shell/cc-panel-list.c:797-801 | the row picked in the current view is visible and none before it is; there is none exactly when no row is visible |
| NavigationEnds.EnteredWalk | shell/cc-panel-list.c:953-1013 | where telling the list of an entered panel ends, for all visibilities and in every view: panel, history, visible rows and the panel the list remembers |
| NavigationEnds.OpenEnds | shell/cc-window.c:347-428 | with grounded parents (not cyclic, and a Privacy panel that is System's parent cannot be opened while the list hides it) opening any panel from any state ends, with at most five row activations in progress |
| NavigationEnds.RowEnds | shell/cc-panel-list.c:515-542 | so does activating any row, including the autoselection it may start with |
| NavigationEnds.MainWalk | shell/cc-panel-list.c:974-980 | where the redirect from a list-hidden panel to the first visible row ends |
| NavigationEnds.CyclicHangs | shell/cc-panel-list.c:526-533 | with cyclic parents there are visibilities with which a new window, with its rows in the order they have, never gets its first panel open |
| NavigationEnds.EndsIffAcyclic | shell/cc-window.c:221-285 | for all visibilities that a window can have, with its rows in the order they have, every first navigation ends if and only if the parents are not cyclic |
| NavigationHistory.BackKeepsNeighboursDistinct | shell/cc-window.c:451-468 | "back" keeps neighbours distinct if and only if it does not pop an unavailable panel with the current one behind it |
| NavigationHistory.BackDropsOne | shell/cc-window.c:451-468 | "back" shortens the history by exactly one or not at all; by one if and only if the popped panel cannot be opened or does not make the list open another |
| NavigationHistory.BackArrives | shell/cc-window.c:451-468 | where "back" to a panel that can be opened ends up |
| NavigationHistory.HiddenPanelIsPushedBack | shell/cc-panel-list.c:974-980 | a list-hidden popped panel is pushed straight back when the first visible row leads to another panel |
| NavigationHistory.TrappedRun | shell/cc-window.c:221-230 | in a new window whose first row is an ordinary panel's, opening a panel the window hides and going back any number of times ends with the first panel open and the hidden one still in the history |
| NavigationHistory.TrappedWitness | shell/cc-panel-list.c:974-980 | such a window, with Wi-Fi and Displays |
| NavigationHistory.RunsEnd | shell/cc-window.c:347-428 | in every run each action ends, and between actions no visible main row is list-hidden |
| NavigationHistory.WindowRunsEndIff | shell/cc-window.c:221-285 | for all visibilities that a window can have, with its rows in the order they have at first, every run of all kinds of actions ends if and only if the parents are not cyclic |
| NavigationHistory.PerformKeepsConsistent | shell/cc-panel-list.c:1040-1067 | every action keeps that |
| NavigationHistory.RunsAlternateIff | shell/cc-window.c:160-171 | over whole runs current panel and history have no equal neighbours if and only if no "back" collides |
| NavigationHistory.CollidingRun | shell/cc-window.c:451-468 | a run of a new window that ends with two equal neighbours |
| NavigationHistory.NothingToOpen | shell/cc-window.c:347-398 | opening what is open already, is not there, or is hidden in the model changes nothing |
| NavigationHistory.OrdinaryOpens | shell/cc-panel-list.c:982-1022 | an ordinary panel: what is open, pushed, visible, selected and remembered afterwards, and that a temporary row disappears |
| NavigationHistory.SinglePanelOpens | shell/cc-window.c:410-426 | in single-panel mode neither the list nor the history takes notice |
| NavigationHistory.SubpageOpensSystem | shell/cc-window.c:375-392 | a System subpage opens System in its place |
| NavigationHistory.ClickArrives | shell/cc-panel-list.c:515-585 | a click on a row, or on a search result without any autoselection, ends on the way from the panel or its parent |
| NavigationHistory.QuietClick | shell/cc-panel-list.c:515-541 | when that panel is open already or cannot be opened, the click only leads to the main view |
| NavigationHistory.StartsUpAtFirstRow | shell/cc-window.c:681-698 | without a known last panel the window ends on the way from the panel, or its parent, of the first visible row |
| NavigationHistory.NewWindowStartsUp | shell/cc-window.c:681-698 | a new window whose first visible row is an ordinary panel's starts up with that panel |
| NavigationHistory.LoadsLastPanel | shell/cc-window.c:686-695 | a last panel that the list shows: the window ends on the way from it or its parent, and the list remembers it |
| NavigationHistory.HiddenLastPanel | shell/cc-panel-list.c:974-980 | a last panel that the list hides counts as none |
| NavigationHistory.NothingToLoad | shell/cc-window.c:687-688 | with a panel already active in the list nothing is loaded |
| NavigationHistory.QueryOutcome | shell/cc-panel-list.c:187-206 | a text leads to the search view, its removal back to the main view without autoselection; nothing is opened |
| NavigationHistory.CollapseOutcome | shell/cc-panel-list.c:1069-1088 | collapsing loses the selection, expanding selects the remembered row |
| NavigationHistory.SinglePanelOutcome | shell/cc-window.c:870-880 | single-panel mode also collapses the window, and does nothing else to the list |
| NavigationHistory.RefreshOutcome | shell/cc-panel-list.c:1054-1066 | a panel's new visibility counts in model and list alike, and a new query orders and filters the search rows; other panels and rows stay |
| NavigationHistory.VisibilityOutcome | shell/cc-panel-list.c:1056-1065 | a change that does not concern the selected row only shows or hides the row |
| NavigationHistory.RowTargets | shell/cc-panel-list.c:526-533 | rows of System subpages lead to System, rows below Privacy to Privacy, others to their own panel |
| NavigationHistory.SearchActivates | shell/cc-window.c:513-524 | Enter in the search opens the first row found, or its parent; in the main view it does nothing |
| NavigationHistory.NeighbourIs | shell/cc-panel-list.c:110-128 | the row that takes over is the next one, or the one before at the end |
| NavigationHistory.SelectedRowHandsOver | shell/cc-panel-list.c:1056-1065 | when the selected row disappears the window ends on the way from its neighbour's panel, or parent, and the row is gone |
| NavigationHistory.SwitchAutoselects | shell/cc-panel-list.c:172-179 | returning to the main view with autoselection opens the panel, or parent, of the first visible row |
| NavigationHistory.OpenArrives | shell/cc-window.c:392-428 | where opening a panel ends up for all visibilities and in every view, what is pushed, what is shown, and what the list then remembers |
| NavigationHistory.ListAgreesIff | shell/cc-panel-list.c:1009-1015 | the list remembers the open panel if and only if it is the only one on the way that the list shows, or all are hidden and it was remembered before |
| NavigationHistory.ListedPanelAgreesIff | shell/cc-panel-list.c:526-533 | for a panel the list shows: if and only if its row leads on to no parent |
| NavigationHistory.TemporaryRowDisappears | shell/cc-panel-list.c:982-1001 | a row shown only while its panel was active disappears when the list selects another; no other row off the way changes |
| NavigationHistory.HiddenPanelStaysIff | shell/cc-panel-list.c:974-980 | a list-hidden panel opened from the main view stays open if and only if the first visible row leads to no other panel |
| NavigationShell.Shell.AddCurrentPanelToHistory | shell/cc-window.c:160-171 | pushes the current panel unless there is none or it is the one being opened |
| NavigationShell.Shell.SetActivePanelFromId | shell/cc-window.c:325-429 | the window's state is updated before the list is told, and ends as specified |
| NavigationShell.Shell.SetActivePanel | shell/cc-panel-list.c:953-1013 | a panel the list hides redirects; another is marked, activated, and remembered only afterwards |
| NavigationShell.Shell.MarkRow | shell/cc-panel-list.c:982-1009 | hides a temporarily visible row, shows and selects the new one, and turns autoselection off |
| NavigationShell.Shell.FirstVisibleRow | shell/cc-panel-list.c:797-801 | the row at which the loop stops is visible and none before it is; there is none exactly when no row is visible |
| NavigationShell.Shell.Activate | shell/cc-panel-list.c:783-813 | activates that row and tells whether there was one |
| NavigationShell.Shell.ActivateSearchRow | shell/cc-panel-list.c:544-594 | finds the main row of a search result and activates it without autoselection |
| NavigationShell.Shell.ActivateRow | shell/cc-panel-list.c:515-542 | switches to the main view, shows the panel or its parent, and turns autoselection back on |
| NavigationShell.Shell.ShowPanel | shell/cc-window.c:488-511 | opens the parent if there is one |
| NavigationShell.Shell.ViewSwitch | shell/cc-panel-list.c:140-185 | changes the view and autoselects outside the search |
| NavigationShell.Shell.Open | shell/cc-window.c:568-580 | with grounded parents the entry point needs no bound |
| NavigationShell.Shell.SwitchToPreviousPanel | shell/cc-window.c:451-468 | pops and opens without pushing |
| NavigationShell.Shell.MaybeLoadLastPanel | shell/cc-window.c:681-698 | opens the last panel or the first row, unless the list has a current panel |
| NavigationShell.Shell.UpdateSearch | shell/cc-panel-list.c:187-210 | leaving the search does not autoselect |
| NavigationShell.Shell.SetSelectionMode | shell/cc-panel-list.c:1069-1088 | a collapsed window's list loses its selection, and an expanded one selects the remembered row |
| NavigationShell.Shell.SetPanelVisibility | shell/cc-panel-list.c:1040-1067 | a selected row that disappears hands over to its neighbour first |
| SearchMatch.IterMatchesSearch | shell/cc-shell-model.c:329-359 | a term matches by name, description or keyword prefix |
| SearchMatch.MatchesAllTerms | search-provider/cc-search-provider.c:70-86 | all terms must match |
| SearchMatch.FilterFunc | shell/cc-panel-list.c:320-369 | every non-empty word must match stripped name or description, or begin a keyword |
| SearchMatch.MatchesTermIff | shell/cc-shell-model.c:329-359 | a term matches if and only if it occurs in the name or description, or begins some keyword |
| SearchMatch.AcceptsWordIff | shell/cc-panel-list.c:351-366 | the same for the window's words and the stripped name and description |
| SearchMatch.SpacesAre | shell/cc-panel-list.c:344-345 | which characters stripping takes as white space |
| SearchMatch.KeywordMatches | shell/cc-panel-list.c:357-359 | every keyword that begins with the term makes both matchers accept |
| SearchMatch.TextMatches | shell/cc-shell-model.c:344-349 | so does any place in name or description, in the window for terms without white space at the ends |
| SearchMatch.MatchersAgree | shell/cc-panel-list.c:341-366 | both matchers accept the same rows for terms that are empty or have no white space at their ends |
| SearchMatch.AgreeIffSolid | shell/cc-panel-list.c:344-345 | the matchers agree on all rows if and only if every term has solid ends or begins a term of the list that has |
| SearchMatch.NeverAddsIffNarrows | shell/cc-shell-model.c:329-359 | changing terms never adds results if and only if every old term is empty or begins a new one |
| SearchMatch.FilterNeverAddsIffNarrows | shell/cc-panel-list.c:351-366 | the same equivalence for the window's filter |
| SearchMatch.CutJoin | shell/cc-panel-list.c:841-842 | splitting at spaces undoes joining with spaces |
| SearchMatch.FoldedSearchAgrees | shell/cc-panel-list.c:839-842 | the window's filter for the joined terms accepts exactly the rows the provider lists |
| LaunchedSearch.ArrivesIff | search-provider/cc-search-provider.c:292-305 | the window is started with the text that was sent if and only if it contains no single quote and no per cent sign |
| LaunchedSearch.TermsArriveIff | search-provider/cc-search-provider.c:291-293 | the joined terms arrive if and only if none of them contains either |
| LaunchedSearch.ApostropheFails | search-provider/cc-search-provider.c:293-299 | a text with one single quote and then ordinary letters does not start the window |
| LaunchedSearch.FieldVanishes | search-provider/cc-search-provider.c:293-299 | a per cent sign and the character behind it are missing from what arrives, unless that is another one or a "c", in a text without further quotes and per cent signs |
| LaunchedSearch.TwoPercentsBecomeOne | search-provider/cc-search-provider.c:293-299 | two per cent signs arrive as one |
| LaunchedSearch.NameFieldArrives | search-provider/cc-search-provider.c:293-299 | "%c" arrives as the application's name |
| LaunchedSearch.EscapedArrives | search-provider/cc-search-provider.c:293-299 | a character written with a backslash between two quoted parts arrives; a quote written so is the usual way to send one |
| LaunchedSearch.EscapedQuoteArrives | search-provider/cc-search-provider.c:293-299 | the usual way to write a quote between quotes arrives as that quote |
| LaunchedSearch.DoubleQuotedArrives | search-provider/cc-search-provider.c:293-299 | double quotes outside single ones vanish |
| LaunchedSearch.EscapedInDoubleArrives | search-provider/cc-search-provider.c:293-299 | what a backslash does inside them |
| LaunchedSearch.BlankEndsText | search-provider/cc-search-provider.c:293-299 | what stands behind an unquoted blank is lost |
| LaunchedSearch.CommentEndsText | search-provider/cc-search-provider.c:293-299 | and so is a comment |
| LaunchedSearch.ApostropheWitness | search-provider/cc-search-provider.c:292-293 | "don't" does not start the window |
| LaunchedSearch.PercentWitness | search-provider/cc-search-provider.c:292-293 | "10%25" arrives as "105" |
| LaunchedSearch.LaunchedSearchShows | shell/cc-panel-list.c:893-898 | for terms that arrive, the window shows a row if and only if the provider lists it and it is not hidden from the search list |
| LaunchedSearch.HiddenPanelsAre | shell/cc-window.c:221-230 | the panels that the window hides, by id |
| LaunchedSearch.ShowsResultsIff | shell/cc-window.c:221-269 | so it shows exactly the provider's results if and only if none of them is hidden |
| LaunchedSearch.HiddenResultWitness | shell/cc-window.c:221-230 | a search with such a result |
| ShellSort.CountMatches | shell/cc-shell-model.c:80-97 | the number of pairs of a term and a keyword that contains it |
| ShellSort.SortByNameWithTerms | shell/cc-shell-model.c:52-78 | the first term that only one name contains decides |
| ShellSort.SortByKeywordsWithTerms | shell/cc-shell-model.c:99-121 | more keyword matches come first |
| ShellSort.SortByDescriptionWithTerms | shell/cc-shell-model.c:123-157 | a description comes before none, then more matching words come first |
| ShellSort.SortFunc | shell/cc-shell-model.c:159-194 | the first term that only one name contains decides; then more keyword matches, a description before none, more matching words of it, and the lesser name; without terms the name alone. That is the lexicographic order on the rank vector, then the name |
| ShellSort.StagesAreRank | shell/cc-shell-model.c:159-180 | the stages taken in turn are one lexicographic comparison |
| ShellSort.FirstNameMatchDecides | shell/cc-shell-model.c:64-75 | of two rows whose names contain the same earlier terms the one whose name contains the next one comes first |
| ShellSort.ThenKeywordsDecide | shell/cc-shell-model.c:112-156 | when the names agree: more keyword matches, then a description before none, then more matching words, then the lesser name |
| ShellSort.NameMatchesFirst | search-provider/cc-search-provider.c:97-127 | in a sorted store every row whose name contains the first term stands before every row whose name does not |
| ShellSort.OrderFlip | shell/cc-shell-model.c:182-194 | the order is antisymmetric |
| ShellSort.OrderTransitive | shell/cc-shell-model.c:182-194 | the order is transitive |
| ShellSort.OrderTies | shell/cc-shell-model.c:182-194 | two rows tie if and only if name and rank are the same |
| ShellSort.SortedIsUnique | shell/cc-shell-model.c:361-375 | rows with distinct names have exactly one sorted arrangement |
| ShellSort.TiesLeaveAChoice | shell/cc-shell-model.c:361-375 | two rows can stand in either order if and only if they tie |
| ShellSort.ResultsDetermined | search-provider/cc-search-provider.c:97-127 | the results are exactly the matching rows, in one determined order |
| ShellSort.HistoryDoesNotMatter | search-provider/cc-search-provider.c:97-127 | insertion order and earlier searches do not influence the answer |
| ShellSort.CollectIds | search-provider/cc-search-provider.c:108-122 | the cursor loop collects the ids of the matching rows in store order |
| ShellSort.ShellModel.AddItem | shell/cc-shell-model.c:273-303 | the store stays sorted and gains exactly the row |
| ShellSort.ShellModel.SetSortTerms | shell/cc-shell-model.c:361-375 | the same rows are sorted for the new terms |
| ShellSort.ShellModel.GetResults | search-provider/cc-search-provider.c:97-127 | sorts for the terms and answers with the ids of the matching rows, those whose names contain the first term before the others |
| DecimalText.PaddedOrder | panels/color/cc-color-profile.c:395-399 | zero-padded decimal of a fixed width preserves order |
| DecimalText.OrderedAsTextIff | panels/color/cc-color-profile.c:395-399 | for every width, the interval around zero on which text order is number order |
| ColorKeys.KeysCompareAsTuples | panels/color/cc-color-profile.c:373-400 | strcmp of profile keys of one device is the lexicographic order of rank, creation time and title |
| ColorKeys.NewestFirst | panels/color/cc-color-panel.c:1810-1830 | within a device and data source the newest profile comes first |
| ColorKeys.CreatedOrderIff | panels/color/cc-color-profile.c:395-399 | creation times from lo to hi around zero are ordered like their text if and only if lo is at least -1 and hi has twelve digits |
| ColorKeys.KindsInOrder | panels/color/cc-color-common.c:90-105 | devices of a kind with a higher rank come first, with all their rows |
| ColorKeys.KindsByName | panels/color/cc-color-common.c:90-105 | other kinds, displays, scanners, cameras, webcams and printers stand in this order in every sorted list |
| ColorKeys.SourcesByName | panels/color/cc-color-profile.c:356-371 | so do a device's profiles: without a source, calibration, standard, test, others |
| ColorKeys.SuffixBounds | panels/color/cc-color-device.c:217-218 | every profile suffix sorts below the device's "XX" and above one lowest suffix |
| ColorKeys.GroupedIffToldApart | panels/color/cc-color-panel.c:1810-1830 | in every sorted list each device leads its own rows and they are contiguous, if and only if different devices have different base keys and none continues another by a text that falls between the suffixes |
| ColorKeys.PrefixFreeGrouped | panels/color/cc-color-panel.c:1810-1830 | in particular when no device's base key equals or begins another device's |
| ColorKeys.PrefixWitness | panels/color/cc-color-common.c:107-116 | two devices with different ids whose rows mix because one key continues the other |
| ColorKeys.EqualKeysWitness | panels/color/cc-color-common.c:107-116 | two devices with different ids and titles and one and the same key, whose rows mix |
| ColorExpansion.StepKeepsInv | panels/color/cc-color-panel.c:1396-1434 | every action keeps at most one device expanded, named by the filter, and the toolbar in step with the selection |
| ColorExpansion.AtMostOneExpanded | panels/color/cc-color-panel.c:1396-1434 | over every run at most one device is expanded and its profiles are shown |
| ColorExpansion.ShownIffExpanded | panels/color/cc-color-panel.c:1832-1849 | over whole runs only the expanded device's profiles are shown if and only if no named device is removed and added again collapsed |
| ColorExpansion.ComesBackWitness | panels/color/cc-color-panel.c:1468-1495 | a run in which that happens |
| ColorExpansion.ClickRepairs | panels/color/cc-color-device.c:195-202 | the next click on an expander puts that right |
| ColorExpansion.ClickExpandsAndCollapses | panels/color/cc-color-device.c:195-202 | a click on a collapsed device expands, filters and selects it alone; a second one collapses all and selects nothing |
| ColorExpansion.ClickCollapses | panels/color/cc-color-panel.c:1427-1433 | a click on an expanded device leaves another selection alone |
| ColorExpansion.SelectOutcome | panels/color/cc-color-panel.c:1581-1625 | selecting a device expands it; selecting a profile expands nothing |
| ColorExpansion.AddOutcome | panels/color/cc-color-panel.c:1497-1526 | a device that is added alone is expanded and selected, another one added collapsed |
| ColorExpansion.RemoveOutcome | panels/color/cc-color-panel.c:1497-1540 | a removed device takes its selection along, and one that is left alone is expanded |
| ColorExpansion.SwitchOffOutcome | panels/color/cc-color-device.c:170-193 | switching a device off collapses it and nothing else |
| ColorExpansion.ColorList.SetDeviceExpanded | panels/color/cc-color-device.c:154-168 | emits only on a change; inside the panel's own changes it only sets the flag |
| ColorExpansion.ColorList.ClickedExpander | panels/color/cc-color-device.c:195-202 | toggles and lets the panel react |
| ColorExpansion.ColorList.ExpandedChanged | panels/color/cc-color-panel.c:1396-1434 | the re-entrant handler ends and leaves exactly the one device expanded, filtered and selected |
| ColorExpansion.ColorList.CollapseOthers | panels/color/cc-color-panel.c:1412-1423 | the loop over the rows collapses all others without further reaction |
| ColorExpansion.ColorList.SelectDeviceRow | panels/color/cc-color-panel.c:1425 | selecting a selected row does nothing |
| ColorExpansion.ColorList.RowSelected | panels/color/cc-color-panel.c:1581-1625 | the toolbar follows the selection, and a selected device is expanded |
| ColorExpansion.ColorList.UserSelect | panels/color/cc-color-panel.c:1570-1579 | what selecting a row amounts to |
| ColorRows.RowsMatchProfiles | panels/color/cc-color-panel.c:1335-1394 | afterwards a profile has a row if and only if the device lists it and it had one or can be used, and never two |
| ColorRows.OthersUntouched | panels/color/cc-color-panel.c:1346-1379 | rows of other devices and all device rows stay, in their order |
| ColorRows.ReconcileTwice | panels/color/cc-color-panel.c:1335-1394 | a second notification changes nothing |
| ColorRows.KeptIs | panels/color/cc-color-panel.c:1346-1379 | exactly the profile rows of this device whose profile it no longer lists go |
| ColorRows.KeptInOrder | panels/color/cc-color-panel.c:1346-1379 | the others keep their order |
| ColorRows.NewRowsAre | panels/color/cc-color-panel.c:1381-1393 | a new row is for a usable listed profile, and marked as the default exactly for the first |
| ColorRows.ListBox.FindProfile | panels/color/cc-color-panel.c:1285-1299 | whether the device lists the profile |
| ColorRows.ListBox.FindWidget | panels/color/cc-color-panel.c:1302-1333 | whether a row shows the profile of the device |
| ColorRows.ListBox.AddDeviceProfile | panels/color/cc-color-panel.c:1223-1264 | appends a row only for a usable profile |
| ColorRows.ListBox.RemoveOutdated | panels/color/cc-color-panel.c:1346-1379 | drops exactly the rows of profiles no longer listed |
| ColorRows.ListBox.DeviceChanged | panels/color/cc-color-panel.c:1335-1394 | the two loops compute the reconciled rows |
| GammaTable.IndicesInRange | panels/color/cc-color-calibrate.c:283-284 | both indices stay within the input |
| GammaTable.Endpoints | panels/color/cc-color-calibrate.c:278-288 | the ends of the input are reproduced |
| GammaTable.SameLengthIsIdentity | panels/color/cc-color-calibrate.c:278-288 | equal lengths give the input back |
| GammaTable.StaysWithin | panels/color/cc-color-calibrate.c:285-288 | no value leaves the range of the input |
| GammaTable.EntriesFitIn16Bits | panels/color/cc-color-calibrate.c:289-291 | values in the unit interval give entries from 0 to 65535 |
| GammaTable.EntryIsSample | panels/color/cc-color-calibrate.c:289-291 | an entry is its sample up to one part in 65535; 1.0 gives 65535 and 0.0 gives 0 |
| GammaTable.TableGrows | panels/color/cc-color-calibrate.c:278-292 | a non-decreasing input gives a non-decreasing table |
| GammaTable.AffineStaysAffine | panels/color/cc-color-calibrate.c:280-288 | an affine ramp stays affine before quantisation |
| GammaTable.ThereAndBack | panels/color/cc-color-calibrate.c:278-288 | resampling to a finer grid that contains the old one, and back, is the identity |
| GammaTable.MixIs | panels/color/cc-color-calibrate.c:280-282 | the position computed in the loop is the exact quotient |
| GammaTable.Mixed | panels/color/cc-color-calibrate.c:280-288 | one round of the loop interpolates each channel at that position |
| GammaTable.SetOutputGamma | panels/color/cc-color-calibrate.c:251-301 | an empty input is an error; otherwise the three arrays hold the three tables, each beginning and ending with its own channel's first and last sample times 65535 |
| LogMask.WindowIsRuns | shell/cc-log.c:459-481 | the sliding window masks exactly by maximal runs |
| LogMask.MaskByPosition | shell/cc-log.c:459-481 | each maximal run keeps its first and last character, the rest is hidden, and everything else is kept |
| LogMask.MasksOneWay | shell/cc-log.c:459-481 | that describes the masked text completely |
| LogMask.RunAround | shell/cc-log.c:459-481 | every alphanumeric character lies in a maximal run |
| LogMask.MaskTwice | shell/cc-log.c:459-481 | masking is idempotent |
| LogMask.LookAlike | shell/cc-log.c:459-481 | values that agree on run shape, run ends and separators give equal output |
| LogMask.LookAlikeIff | shell/cc-log.c:459-481 | and only those, for values without `#` |
| LogMask.HashWitness | shell/cc-log.c:476-481 | a value that spells a mask looks like the value it masks |
| LogMask.Log.AnonymizeValue | shell/cc-log.c:436-482 | exactly one space separates a value from a message that is not empty and does not end in one; then comes the raw text without masking, six stars for invalid text, or a text of the same length that shows everything but the inside of the maximal runs |
| LogMask.Log.AppendMasked | shell/cc-log.c:459-481 | the loop appends as many characters as the value has, masked |
| Text.CompareTransitive | panels/color/cc-color-panel.c:1829 | the order of strcmp is transitive |
| Text.CompareDecided | panels/color/cc-color-panel.c:1829 | strings of which neither is a prefix of the other decide the comparison of all their extensions |

## Left out

- Widgets, drawing, focus, scrolling and centring of rows, translations, and reference counting.
- D-Bus, colord, GSettings back ends, XML text and file enumeration: what they return is a parameter or an action.
- ThreadQueue.SubmitDuringExit: the five steps of the submission are taken back to back; with other threads in between, Safety and Drains say that the task is executed.
- ThreadQueue.WorkQueue.RunInThreadWorker: the method has nobody else submitting meanwhile; interleaving is in the step system of the same module.
- IdleQueue.BackgroundXml.IdleEmit: the method has nobody pushing meanwhile; interleaving is in the step system.
- Thumbnails.Item.GetThumbnailAsync: the worker runs as a separate event, and freshness of rendered pictures is an id from a counter.
- BackgroundLoader.BackgroundXml.LoadXmlInternal: comparing a language with a missing one, and an enumeration element without text, crash in the source; such files are excluded here and are the None result of the specification.
- BackgroundLoader.BackgroundXml.AddWallpaper: whether items are signalled directly or through the idle queue is not distinguished.
- BackgroundSettings.ChosenIsCurrentIff: comparing colours that are missing or do not parse is undefined in the source, so items have both colours, and equal texts are taken to be equal colours.
- ObjectStorage.Storage.AddObject: a failed assertion ends the process; the method requires that it holds, and runs in the step system stop there. Initialising and destroying the storage are not modelled.
- NavigationShell.Shell.SetActivePanelFromId: the split view's content side, panel parameters, closing of dialogs and the bindings of the search bar are not modelled; opening a panel fails only for one that is unknown or hidden in the model, loading is assumed to succeed, and a System subpage needs an installed System panel, whose row the source asserts.
- NavigationShell.Shell.SetPanelVisibility: the search row's visibility afterwards is arbitrary, because `visibility =! CC_PANEL_HIDDEN` at shell/cc-panel-list.c:1066 assigns instead of comparing.
- NavigationShell.Shell: window and list are one object here, and a signal is a call; the ghost argument that counts nested row activations is discharged at the entry points.
- SearchMatch.FoldedSearchAgrees: folding is a parameter that treats joined terms separately and leaves no white space in them.
- GLib is not part of this repository: LaunchedSearch models its replacing of field codes and its splitting of a command line as they are documented and done there.
- LaunchedSearch.LaunchedSearchShows: the window is a new one; in a running one, a panel whose visibility changed may be in the search list again (see SetPanelVisibility above). Option parsing takes the word after `-s` as it is.
- SearchMatch.FilterFunc: an invisible NULL description is taken not to match, as GLib does after its warning.
- ShellSort.ShellModel.AddItem: the list store's own sorting algorithm is replaced by an insertion; only that its rows are a sorted permutation is used.
- The lazily built table from result ids to rows (search-provider/cc-search-provider.c:161-188), which would only add a lookup.
- NavigationHistory.HiddenPanelStaysIff: from the search view a second redirect can follow; OpenArrives says where it ends.
- ColorRows.ListBox.AddDeviceProfile: the row is appended; where the list box puts it is in ColorKeys.
- ColorRows.ListBox.DeviceChanged: the sort function that places new rows is modelled on its own, in ColorKeys; rows are appended here.
- ColorExpansion.ColorList.RowSelected: sensitivity of the toolbar's buttons is not modelled.
- GammaTable.SetOutputGamma: floating-point rounding, a gamma size of 1 (the source rejects only 0 and divides by zero), and the conversion of values outside 0..65535, which C leaves undefined.
- LogMask.Log.AnonymizeValue: UTF-8 decoding; a value is given as its characters or as invalid.
- Which messages are logged at which verbosity (shell/cc-log.c:75-176): a decision table.
- The order of the profile combo box: its kind can be left unset (panels/color/cc-color-panel.c:129-158), so no order is defined.
- The recent-backgrounds source, autorun and search-provider lists, snaps, shortcuts and Bluetooth: branch tables that would only add easy members.
