# Shark tracker favourites: a Dafny model

This project models three small pieces of logic from a Swing shark-tracking application.

- **Sightings** (`SharkTimes`, `shark_time.dfy`). A sighting ("ping") is a shark name and a
  time written `yyyy-MM-dd HH:mm:ss`. `compareTo` orders sightings most recent first.
  `equals` and `hashCode` look only at the name, so a probe built from a name alone finds
  that shark in a list with `contains` and `indexOf`.
- **Counting and rounding** (`GuiUtils`, `gui_utils.dfy`). `insertOrIncrement` is a method
  that updates a hash table object in place. It inserts a category with count 1, or adds one
  to its count, and ignores a null key. `round` writes a non-negative distance rounded up
  to hundredths with the pattern `#.##`.
- **The favourites frame** (`Favourites`, `favourites.dfy`). The frame is a class whose
  fields hold the current profile path, the list model, the start frame's favourites
  button, and the files and directories on disk. `UpdateFavouritesList` clears the list,
  reads one shark per profile line, ranks the sharks by distance from King's with a stable
  sort, and disables the button when an IOException cuts the refresh short.
  `CreateProfile` and `LoadProfile` are the two menu dialogs, as loops over the answers
  typed. `MostRecentPing` is the lookup of a favourite's latest sighting over the past 24
  hours, then the past week, then the past month.

Supporting modules: `Options` (an option type), `Numerals` (decimal digit strings and
their round trips) and `JavaInt` (32-bit `int` arithmetic and `String.hashCode`).

Calls out of the model are parameters:
- The Jaws API's last location of a shark, the haversine distance to King's, and whether
  each reverse-geocode request completes are the oracles in `Favourites.Collaborators`.
- Dialog answers are a sequence of `Option<string>`, where `None` is Cancel.
- Whether `createNewFile` succeeds is a boolean parameter.
- The three ordered ping lists of the cascade are inputs.

A call can end in one of three ways (`Favourites.Outcome`):
- it returns (`Completed`);
- it throws a NullPointerException the code does not guard against (`NullPointer`);
- a dialog loop is still prompting when the answers run out (`AwaitingInput`).

Two behaviours of the code that a reader might not expect, both modelled as written:
- A malformed timestamp is not skipped. `compareTo` dereferences the null date, and the
  model returns `None` for that.
- An IOException from a geocode request ends the refresh; it does not drop just that shark
  from the ranking. The list then shows, unsorted, every entry collected so far, including
  the entry of the line that failed.

The comment in the Load action at `Favourites.java:259-262` says the user may cancel. The
Load loop has no exit for Cancel or an empty name, and `LoadProfile` models that loop.

## Model

| member | source | states |
|---|---|---|
| SharkTimes.Probe | pra-major-coursework-2016/src/data/SharkTime.java:39-43 | the one-argument constructor keeps the name and stores the time "0000-00-00 00:00:00" |
| SharkTimes.Parse | pra-major-coursework-2016/src/data/SharkTime.java:57-70 | the parse succeeds exactly on text of the fixed-width layout `yyyy-MM-dd HH:mm:ss`, and every field it yields fits its digit count |
| SharkTimes.FormatThenParse | pra-major-coursework-2016/src/data/SharkTime.java:57 | parsing a time written in the layout gives that time back |
| SharkTimes.ParseThenFormat | pra-major-coursework-2016/src/data/SharkTime.java:57 | writing a parsed time in the layout gives back the original text, so the parse loses nothing |
| SharkTimes.BeforeIsStrictTotalOrder | pra-major-coursework-2016/src/data/SharkTime.java:79-83 | "before" on parsed times is irreflexive, asymmetric, transitive and total |
| SharkTimes.CompareTo | pra-major-coursework-2016/src/data/SharkTime.java:49-93 | no result (the NullPointerException) exactly when either time fails to parse; otherwise 1 exactly when this time is earlier, -1 exactly when it is later, 0 exactly when the instants are equal |
| SharkTimes.CompareToAntisymmetric | pra-major-coursework-2016/src/data/SharkTime.java:79-91 | whenever compareTo(a, b) has a result, compareTo(b, a) is its negation |
| SharkTimes.CompareToTransitive | pra-major-coursework-2016/src/data/SharkTime.java:79-91 | 1 then 1 gives 1, and a 0 on the left passes the right comparison through unchanged |
| SharkTimes.CompareToZeroIffSameTime | pra-major-coursework-2016/src/data/SharkTime.java:66-91 | two well-formed sightings compare 0 exactly when their time texts are equal, whatever their names |
| SharkTimes.MostRecentFirstIsDescending | pra-major-coursework-2016/src/data/SharkTime.java:8-10 | in a list sorted under compareTo, no sighting comes before a later one |
| SharkTimes.Equals | pra-major-coursework-2016/src/data/SharkTime.java:124-149 | true exactly when the argument is a SharkTime with the same, possibly null, name; null and objects of other classes are unequal |
| SharkTimes.EqualsIsEquivalence | pra-major-coursework-2016/src/data/SharkTime.java:124-149 | equals is reflexive, symmetric and transitive among sightings |
| SharkTimes.HashCode | pra-major-coursework-2016/src/data/SharkTime.java:103-114 | the hash of a sighting with a null name is 31 |
| SharkTimes.HashCodeOfName | pra-major-coursework-2016/src/data/SharkTime.java:106-112 | for a named sighting the hash is 31 plus the documented String.hashCode polynomial of the name, reduced to 32 bits |
| SharkTimes.EqualObjectsHaveEqualHashes | pra-major-coursework-2016/src/data/SharkTime.java:103-149 | equal sightings have equal hash codes, so the hash depends on the name alone |
| SharkTimes.ProbeFindsName | pra-major-coursework-2016/src/data/SharkTime.java:32-43 | the probe for a name equals every sighting of that shark and no other |
| SharkTimes.IndexOf | pra-major-coursework-2016/src/favourites/Favourites.java:574 | the index of the first element the probe equals, or -1 exactly when no element equals it |
| SharkTimes.Contains | pra-major-coursework-2016/src/favourites/Favourites.java:547-555 | true exactly when some element equals the probe |
| GuiUtils.Increment | pra-major-coursework-2016/src/utils/GUIUtils.java:186 | adds one to a count; at Integer.MAX_VALUE it wraps to Integer.MIN_VALUE |
| GuiUtils.Bumped | pra-major-coursework-2016/src/utils/GUIUtils.java:173-194 | a null key leaves the table unchanged; an absent key is added with 1; a present key is incremented by one; the key set grows by the key alone and no other key changes |
| GuiUtils.Hashtable.constructor | pra-major-coursework-2016/src/utils/GUIUtils.java:173 | a new table is empty; its contents are the map insertOrIncrement updates in place |
| GuiUtils.BumpedAll | pra-major-coursework-2016/src/utils/GUIUtils.java:165-172 | the table after one call per key, in order; its contract is BumpedAllCounts and RepeatedInsertCountsCalls |
| GuiUtils.InsertOrIncrement | pra-major-coursework-2016/src/utils/GUIUtils.java:173-194 | the table object's contents become the table Bumped describes |
| GuiUtils.BumpedAllCounts | pra-major-coursework-2016/src/utils/GUIUtils.java:165-172 | after counting a sequence of keys, a key is in the table exactly when it was there or was counted, and its value grew by the number of times it was counted, provided that count does not pass Integer.MAX_VALUE |
| GuiUtils.RepeatedInsertCountsCalls | pra-major-coursework-2016/src/utils/GUIUtils.java:165-172 | from a table without k, n calls with k leave k mapped to n, and absent when n is 0 |
| GuiUtils.Round | pra-major-coursework-2016/src/utils/GUIUtils.java:155-163 | its contract is RoundFollowsPattern, RoundReadsBack and RoundExamples |
| GuiUtils.CeilCents | pra-major-coursework-2016/src/utils/GUIUtils.java:159 | the smallest whole number of hundredths not below the value |
| GuiUtils.Rounded | pra-major-coursework-2016/src/utils/GUIUtils.java:155-163 | the rounded value is never below the input and less than 0.01 above it |
| GuiUtils.RoundFollowsPattern | pra-major-coursework-2016/src/utils/GUIUtils.java:157 | the text round writes has at least one integer digit with no superfluous leading zero ("0.25", "0"), then at most two fraction digits with no trailing zero; it has a point exactly when the rounded value is not whole |
| GuiUtils.RoundReadsBack | pra-major-coursework-2016/src/utils/GUIUtils.java:155-163 | reading back the text round writes gives exactly the rounded-up value |
| GuiUtils.RoundKeepsHundredths | pra-major-coursework-2016/src/utils/GUIUtils.java:159-161 | a value with at most two decimals is rounded to itself |
| GuiUtils.RoundExamples | pra-major-coursework-2016/src/utils/GUIUtils.java:155-163 | 1.004 is written "1.01", 2.5 "2.5", 0.25 "0.25", 3.0 "3" and 0.0 "0" |
| Favourites.CompareTo | pra-major-coursework-2016/src/favourites/Favourites.java:366-382 | -1, 1 or 0 exactly when this distance is less than, greater than or equal to the other |
| Favourites.CompareToIsComparator | pra-major-coursework-2016/src/favourites/Favourites.java:366-382 | compareTo is antisymmetric and transitive, and entries comparing 0 compare alike to any third |
| Favourites.AscendingUnderCompareTo | pra-major-coursework-2016/src/favourites/Favourites.java:366-382 | a list is ascending by distance exactly when no entry compares greater than a later one |
| Favourites.SortByDistance | pra-major-coursework-2016/src/favourites/Favourites.java:487 | its contract is SortByDistanceIsStable |
| Favourites.SortByDistanceIsStable | pra-major-coursework-2016/src/favourites/Favourites.java:487 | Collections.sort's result is ascending by distance, a permutation of its input (entries and names), and keeps the input order among entries at equal distance |
| Favourites.EntryFor | pra-major-coursework-2016/src/favourites/Favourites.java:327-337 | the entry of one profile line: its name, its last location and that location's distance to King's; its contract is EntriesFor and RefreshSucceeds |
| Favourites.Display | pra-major-coursework-2016/src/favourites/Favourites.java:390-394 | its contract is DisplayShowsRoundedDistance |
| Favourites.DisplayShowsRoundedDistance | pra-major-coursework-2016/src/favourites/Favourites.java:390-394 | the list shows the shark's name, ": ", the distance rounded up to hundredths in the pattern "#.##", and " Mi." |
| Favourites.EntriesFor | pra-major-coursework-2016/src/favourites/Favourites.java:442-450 | one entry per profile line, in line order, built from that line's name, its last location and the distance to King's |
| Favourites.FirstFailure | pra-major-coursework-2016/src/favourites/Favourites.java:442-484 | the first line whose geocode request throws, every earlier request having completed, or the line count when none throws |
| Favourites.Refreshed | pra-major-coursework-2016/src/favourites/Favourites.java:433-503 | its contract is RefreshSucceeds, RefreshFails and RefreshUsesOnlyProfile |
| Favourites.RefreshSucceeds | pra-major-coursework-2016/src/favourites/Favourites.java:433-503 | a complete refresh lists exactly one entry per profile line, duplicates included, in ascending distance, with lines at equal distance in file order |
| Favourites.RefreshFails | pra-major-coursework-2016/src/favourites/Favourites.java:440-503 | a refresh fails exactly when the profile is no readable file or some geocode request throws; an unreadable profile leaves the list empty; otherwise the list holds, unsorted and in file order, the lines up to and including the first whose request threw |
| Favourites.RefreshUsesOnlyProfile | pra-major-coursework-2016/src/favourites/Favourites.java:433 | every entry after a refresh names a line of the current profile, so nothing from an earlier list survives |
| Favourites.AfterUpdate | pra-major-coursework-2016/src/favourites/Favourites.java:430-505 | the list, button and outcome of a refresh; its contract is UpdateFavouritesList with RefreshSucceeds and RefreshFails |
| Favourites.MenuOutcome | pra-major-coursework-2016/src/favourites/Favourites.java:216-219 | a menu action (here Create; Load at lines 263-266 alike) ends as its refresh did when the search frame is attached, and with the NullPointerException of clearSearchResults otherwise; its contract is CreateProfile and LoadProfile |
| Favourites.StartupEnablesFavourites | pra-major-coursework-2016/src/start/Startup.java:178-184 | the button stays enabled unless the profile is a file with no lines; AddPartnerFrames applies it |
| Favourites.FavouritesFrame.constructor | pra-major-coursework-2016/src/favourites/Favourites.java:85-103 | a new frame uses "lib/default.txt", shows an empty list, has its button enabled and no partner frames |
| Favourites.FavouritesFrame.AddPartnerFrames | pra-major-coursework-2016/src/favourites/Favourites.java:122-128 | attaches the partner frames; the start frame disables the favourites button when the profile is a file with no lines (Startup.java:178-184); nothing else changes, and files and directories stay disjoint |
| Favourites.FavouritesFrame.UpdateFavouritesList | pra-major-coursework-2016/src/favourites/Favourites.java:430-505 | the list, the button and the outcome become those of the refresh of the current profile; a failure disables the button, or throws NullPointerException with the list cleared while no start frame is attached; profile and disk are unchanged, and files and directories stay disjoint |
| Favourites.ProfilePath | pra-major-coursework-2016/src/favourites/Favourites.java:174 | "lib/" + name + ".txt", as Create builds it and Load at line 243; CreateAcceptsOnlyFresh, LoadDialogFindsFirst and the CreateProfile and LoadProfile contracts use it |
| Favourites.CreateDialog | pra-major-coursework-2016/src/favourites/Favourites.java:165-200 | its contract is CreateDialogStops and CreateAcceptsOnlyFresh |
| Favourites.CreateDialogStops | pra-major-coursework-2016/src/favourites/Favourites.java:165-200 | the Create dialog stops at the first answer it does not turn down: a fresh name is accepted; Cancel or an empty name ends it, keeping the file of the last rejected name, or none on the first prompt; while it turns every answer down it keeps prompting |
| Favourites.CreateAcceptsOnlyFresh | pra-major-coursework-2016/src/favourites/Favourites.java:165-192 | Create accepts only "lib/"+name+".txt" for a name typed, and only when that path is neither an existing file nor a directory |
| Favourites.FavouritesFrame.CreateProfile | pra-major-coursework-2016/src/favourites/Favourites.java:157-221 | follows CreateDialog: rejected names leave the profile as it was; a cancelled first prompt throws NullPointerException on the null file; otherwise the file is created when fresh, the list is refreshed from the resulting profile, and the action throws NullPointerException without a search frame |
| Favourites.LoadDialog | pra-major-coursework-2016/src/favourites/Favourites.java:235-257 | its contract is LoadDialogFindsFirst |
| Favourites.LoadDialogFindsFirst | pra-major-coursework-2016/src/favourites/Favourites.java:235-257 | the Load dialog accepts the first answer naming an existing regular file; Cancel, empty names, missing paths and directories never end it |
| Favourites.FavouritesFrame.LoadProfile | pra-major-coursework-2016/src/favourites/Favourites.java:231-268 | follows LoadDialog: the profile stays as it was while the dialog keeps prompting, and an accepted path becomes the profile and is refreshed; the action throws NullPointerException without a search frame |
| Favourites.ChosenWindow | pra-major-coursework-2016/src/favourites/Favourites.java:547-559 | its contract is ChosenWindowIsFirstHolding |
| Favourites.ChosenWindowIsFirstHolding | pra-major-coursework-2016/src/favourites/Favourites.java:547-559 | the lookup reads the past 24 hours if they hold a sighting of the shark, else the past week if it holds one, else the past month if it holds one, else no list |
| Favourites.MostRecentPing | pra-major-coursework-2016/src/favourites/Favourites.java:540-576 | its contract is MostRecentPingTakesFirstSighting and MostRecentPingIsLatest |
| Favourites.PingText | pra-major-coursework-2016/src/favourites/Favourites.java:564-574 | its contract is MostRecentPingTakesFirstSighting |
| Favourites.MostRecentPingTakesFirstSighting | pra-major-coursework-2016/src/favourites/Favourites.java:561-574 | "No ping data available." is shown when no window holds a sighting of the shark, and only then is no ping found; otherwise the time of the first sighting of the shark in the window read is shown |
| Favourites.FirstSightingIsLatest | pra-major-coursework-2016/src/favourites/Favourites.java:574 | in a list ordered most recent first, no sighting of the shark is later than its first one |
| Favourites.MostRecentPingIsLatest | pra-major-coursework-2016/src/favourites/Favourites.java:547-574 | when the windows are ordered most recent first, no sighting of the shark in the window read is later than the one reported |
| JavaInt.StringHash | pra-major-coursework-2016/src/data/SharkTime.java:110 | getName().hashCode(); its contract is StringHashIsPolynomial |
| JavaInt.StringHashIsPolynomial | pra-major-coursework-2016/src/data/SharkTime.java:110 | the step-by-step int arithmetic h = 31 * h + c gives s[0]*31^(n-1) + ... + s[n-1], reduced to 32 bits |
| JavaInt.Wrap | pra-major-coursework-2016/src/data/SharkTime.java:110 | reduces a mathematical integer to the 32-bit int congruent to it, leaving in-range values alone |

## Left out

- Swing: frame layout, menus, list listeners, `setVisible`, the map button and its drawing are not modelled. `SharkMap` is not part of this model, and neither is the latitude passed twice at `Favourites.java:607`.
- The Sharknado check (`Favourites.java:464-478`) is not modelled: the regular expression and the message dialog. Only whether the geocode request throws IOException is an oracle.
- `GUIUtils.urlResponse`, `getDistanceFromLatLonInMiles` and `deg2rad` are HTTP and floating-point code. They are the oracles `geocodeOk` and `milesFromKings`.
- The Jaws calls (`getLastLocation`, `past24Hours`, `pastWeek`, `pastMonth`, `getShark`) are not modelled. They are taken to succeed and to give the same answer each time they are called.
- The search frame's `orderedPings`, `sharkResult`, `addToSearchResults` and `clearSearchResults` are not modelled. The ordered lists are inputs, and only a null search frame (a NullPointerException) is modelled.
- SharkTimes.Parse: does not model SimpleDateFormat's lenient normalisation, calendar range checks, time zones or daylight saving. It is a strict fixed-width parse, and instants are ordered field by field. SimpleDateFormat also accepts unpadded fields ("2016-1-5 9:3:7") and ignores text after the seconds; Java's compareTo gives a result on such text, where the model gives `None`.
- SharkTimes.HashCode: its own contract speaks only of null names; HashCodeOfName gives the value for other names. String.hashCode is computed over Dafny characters, so characters outside the 16-bit range are not split into UTF-16 surrogates.
- GuiUtils.Rounded: works on exact non-negative reals, not IEEE doubles, so NaN, infinities and binary representation error are left out.
- GuiUtils.Round: assumes a locale whose decimal separator is '.'.
- Favourites.FavouritesFrame.constructor: does not perform the first refresh that the Java constructor starts through `sharkList()`. Calling `UpdateFavouritesList` right after construction models it: a `NullPointer` outcome there is the Java constructor throwing.
- Favourites.FavouritesFrame.AddPartnerFrames: merges the start frame's one rule for its button into the attachment of the partner frames; the rest of that frame's wiring is not modelled.
- Favourites.FavouritesFrame.CreateProfile: the path is a plain string, and the existence of the `lib/` directory is not modelled. Whether `createNewFile` throws is the parameter `createOk`.
- Favourites.FavouritesFrame.UpdateFavouritesList: an unreadable profile (missing or a directory) is one IOException. Errors while reading the lines (UncheckedIOException) are not modelled.
- Follow/unfollow and other file writes by separate processes are not modelled, and neither is concurrency: the disk changes only through `CreateProfile`.
