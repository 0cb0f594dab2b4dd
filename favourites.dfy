/**
 * The favourites frame: a user profile (a text file of shark names, one per line),
 * the list of those sharks ranked by distance from King's, the Create and Load
 * profile dialogs, and the lookup of a favourite's most recent ping.
 */
module Favourites {
  import opened Options
  import opened SharkTimes
  import GuiUtils

  datatype Location = Location(latitude: real, longitude: real)

  /** A distance as the haversine formula yields it: never negative. */
  type Miles = r: real | r >= 0.0

  /** One entry of the favourites list (the inner class of the same name). */
  datatype DistanceFromKings = DistanceFromKings(sharkName: string, sharkLocation: Location, distanceFromKings: Miles)

  /**
   * The calls the frame makes out of the model: the Jaws API's last location of a shark,
   * the distance in miles from that location to King's, and whether the reverse-geocode
   * request made for the profile's i-th line completes or throws IOException.
   */
  datatype Collaborators = Collaborators(
    lastLocation: string -> Location,
    milesFromKings: Location -> Miles,
    geocodeOk: nat -> bool)

  const DefaultProfile: string := "lib/default.txt"
  const NoPingMessage: string := "No ping data available."

  /** The entry built for one profile line. */
  function EntryFor(name: string, c: Collaborators): DistanceFromKings {
    var location := c.lastLocation(name);
    DistanceFromKings(name, location, c.milesFromKings(location))
  }

  /** What the list shows for an entry (toString). */
  function Display(e: DistanceFromKings): string {
    e.sharkName + ": " + GuiUtils.Round(e.distanceFromKings) + " Mi."
  }

  /**
   * The list shows the shark's name, then the distance rounded up to hundredths in the
   * pattern "#.##", then the unit.
   */
  lemma DisplayShowsRoundedDistance(e: DistanceFromKings)
    ensures exists t ::
      (Display(e) == e.sharkName + ": " + t + " Mi." &&
       GuiUtils.HashDotHashHash(t) && GuiUtils.DecimalValue(t) == Some(GuiUtils.Rounded(e.distanceFromKings)))
  {
    var t := GuiUtils.Round(e.distanceFromKings);
    GuiUtils.RoundFollowsPattern(e.distanceFromKings);
    GuiUtils.RoundReadsBack(e.distanceFromKings);
    assert Display(e) == e.sharkName + ": " + t + " Mi.";
  }

  // ---------------------------------------------------------------------------
  // DistanceFromKings.compareTo and Collections.sort

  /** compareTo: ascending distance from King's. */
  function CompareTo(a: DistanceFromKings, b: DistanceFromKings): (r: int)
    ensures r == -1 <==> a.distanceFromKings < b.distanceFromKings
    ensures r == 1 <==> a.distanceFromKings > b.distanceFromKings
    ensures r == 0 <==> a.distanceFromKings == b.distanceFromKings
  {
    if a.distanceFromKings < b.distanceFromKings then -1
    else if a.distanceFromKings > b.distanceFromKings then 1
    else 0
  }

  lemma CompareToIsComparator(a: DistanceFromKings, b: DistanceFromKings, c: DistanceFromKings)
    ensures CompareTo(a, b) == -CompareTo(b, a)
    ensures CompareTo(a, b) <= 0 && CompareTo(b, c) <= 0 ==> CompareTo(a, c) <= 0
    ensures CompareTo(a, b) == 0 ==> CompareTo(a, c) == CompareTo(b, c)
  {
  }

  predicate Ascending(s: seq<DistanceFromKings>) {
    forall i, j :: 0 <= i < j < |s| ==> s[i].distanceFromKings <= s[j].distanceFromKings
  }

  /** Ascending distance is what compareTo calls ascending order. */
  lemma AscendingUnderCompareTo(s: seq<DistanceFromKings>)
    ensures Ascending(s) <==> forall i, j :: 0 <= i < j < |s| ==> CompareTo(s[i], s[j]) <= 0
  {
  }

  /** The entries of s at distance d, in their order in s. */
  function AtDistance(s: seq<DistanceFromKings>, d: real): seq<DistanceFromKings> {
    if s == [] then []
    else (if s[0].distanceFromKings == d then [s[0]] else []) + AtDistance(s[1..], d)
  }

  function Names(s: seq<DistanceFromKings>): (names: seq<string>)
    ensures |names| == |s|
    ensures forall i :: 0 <= i < |s| ==> names[i] == s[i].sharkName
  {
    if s == [] then [] else [s[0].sharkName] + Names(s[1..])
  }

  /** x placed in front of the first entry of t that is not closer than x. */
  function Insert(x: DistanceFromKings, t: seq<DistanceFromKings>): seq<DistanceFromKings> {
    if t == [] || x.distanceFromKings <= t[0].distanceFromKings then [x] + t
    else [t[0]] + Insert(x, t[1..])
  }

  /** Collections.sort under compareTo: a stable sort by ascending distance. */
  function SortByDistance(s: seq<DistanceFromKings>): seq<DistanceFromKings> {
    if s == [] then [] else Insert(s[0], SortByDistance(s[1..]))
  }

  lemma {:induction false} AtDistanceSplits(a: seq<DistanceFromKings>, b: seq<DistanceFromKings>, d: real)
    ensures AtDistance(a + b, d) == AtDistance(a, d) + AtDistance(b, d)
  {
    if a == [] {
      assert a + b == b;
    } else {
      var ab := a + b;
      var head := if a[0].distanceFromKings == d then [a[0]] else [];
      assert ab[0] == a[0];
      assert ab[1..] == a[1..] + b;
      calc {
        AtDistance(ab, d);
        head + AtDistance(a[1..] + b, d);
        { AtDistanceSplits(a[1..], b, d); }
        head + (AtDistance(a[1..], d) + AtDistance(b, d));
        (head + AtDistance(a[1..], d)) + AtDistance(b, d);
        AtDistance(a, d) + AtDistance(b, d);
      }
    }
  }

  lemma AtDistanceOfOne(e: DistanceFromKings, d: real)
    ensures AtDistance([e], d) == if e.distanceFromKings == d then [e] else []
  {
    assert [e][1..] == [];
  }

  lemma {:induction false} InsertKeepsEntries(x: DistanceFromKings, t: seq<DistanceFromKings>)
    ensures multiset(Insert(x, t)) == multiset([x] + t)
  {
    if t != [] && x.distanceFromKings > t[0].distanceFromKings {
      InsertKeepsEntries(x, t[1..]);
      assert t == [t[0]] + t[1..];
    }
  }

  lemma {:induction false} InsertKeepsNames(x: DistanceFromKings, t: seq<DistanceFromKings>)
    ensures multiset(Names(Insert(x, t))) == multiset(Names([x] + t))
  {
    if t != [] && x.distanceFromKings > t[0].distanceFromKings {
      var rest := Insert(x, t[1..]);
      InsertKeepsNames(x, t[1..]);
      assert Names([t[0]] + rest) == [t[0].sharkName] + Names(rest);
      assert Names([x] + t[1..]) == [x.sharkName] + Names(t[1..]);
      assert Names(t) == [t[0].sharkName] + Names(t[1..]);
      assert Names([x] + t) == [x.sharkName] + Names(t);
    }
  }

  /** Every entry of s is at least b miles from King's. */
  predicate NoCloserThan(b: real, s: seq<DistanceFromKings>) {
    forall k :: 0 <= k < |s| ==> b <= s[k].distanceFromKings
  }

  lemma {:induction false} InsertKeepsNoCloserThan(b: real, x: DistanceFromKings, t: seq<DistanceFromKings>)
    requires b <= x.distanceFromKings && NoCloserThan(b, t)
    ensures NoCloserThan(b, Insert(x, t))
  {
    if t != [] && x.distanceFromKings > t[0].distanceFromKings {
      var rest := Insert(x, t[1..]);
      InsertKeepsNoCloserThan(b, x, t[1..]);
      assert forall k :: 0 < k < |rest| + 1 ==> ([t[0]] + rest)[k] == rest[k - 1];
    } else {
      assert forall k :: 0 < k < |t| + 1 ==> ([x] + t)[k] == t[k - 1];
    }
  }

  lemma {:induction false} InsertKeepsAscending(x: DistanceFromKings, t: seq<DistanceFromKings>)
    requires Ascending(t)
    ensures Ascending(Insert(x, t))
  {
    if t != [] && x.distanceFromKings > t[0].distanceFromKings {
      var rest := Insert(x, t[1..]);
      var r := [t[0]] + rest;
      InsertKeepsAscending(x, t[1..]);
      InsertKeepsNoCloserThan(t[0].distanceFromKings, x, t[1..]);
      forall i, j | 0 <= i < j < |r|
        ensures r[i].distanceFromKings <= r[j].distanceFromKings
      {
        assert r[j] == rest[j - 1];
        if i > 0 {
          assert r[i] == rest[i - 1];
        }
      }
    } else {
      var r := [x] + t;
      forall i, j | 0 <= i < j < |r|
        ensures r[i].distanceFromKings <= r[j].distanceFromKings
      {
        assert r[j] == t[j - 1];
        if i > 0 {
          assert r[i] == t[i - 1];
        }
      }
    }
  }

  /** Among the entries at one distance, Insert puts x in front of those of t. */
  lemma {:induction false} InsertKeepsTies(x: DistanceFromKings, t: seq<DistanceFromKings>, d: real)
    ensures AtDistance(Insert(x, t), d) == AtDistance([x] + t, d)
  {
    if t != [] && x.distanceFromKings > t[0].distanceFromKings {
      var rest := Insert(x, t[1..]);
      var one, other := AtDistance([t[0]], d), AtDistance([x], d);
      AtDistanceOfOne(t[0], d);
      AtDistanceOfOne(x, d);
      assert Insert(x, t) == [t[0]] + rest;
      assert one + other == other + one by {
        if one != [] {
          assert other == [];
        }
      }
      calc {
        AtDistance(Insert(x, t), d);
        { AtDistanceSplits([t[0]], rest, d); }
        one + AtDistance(rest, d);
        { InsertKeepsTies(x, t[1..], d); }
        one + AtDistance([x] + t[1..], d);
        { AtDistanceSplits([x], t[1..], d); }
        one + (other + AtDistance(t[1..], d));
        (one + other) + AtDistance(t[1..], d);
        (other + one) + AtDistance(t[1..], d);
        other + (one + AtDistance(t[1..], d));
        { AtDistanceSplits([t[0]], t[1..], d); assert [t[0]] + t[1..] == t; }
        other + AtDistance(t, d);
        { AtDistanceSplits([x], t, d); }
        AtDistance([x] + t, d);
      }
    }
  }

  lemma {:induction false} SortKeepsAscending(s: seq<DistanceFromKings>)
    ensures Ascending(SortByDistance(s))
  {
    if s != [] {
      SortKeepsAscending(s[1..]);
      InsertKeepsAscending(s[0], SortByDistance(s[1..]));
    }
  }

  lemma {:induction false} SortKeepsEntries(s: seq<DistanceFromKings>)
    ensures multiset(SortByDistance(s)) == multiset(s)
  {
    if s != [] {
      SortKeepsEntries(s[1..]);
      InsertKeepsEntries(s[0], SortByDistance(s[1..]));
      assert s == [s[0]] + s[1..];
    }
  }

  lemma {:induction false} SortKeepsNames(s: seq<DistanceFromKings>)
    ensures multiset(Names(SortByDistance(s))) == multiset(Names(s))
  {
    if s != [] {
      var sorted := SortByDistance(s[1..]);
      SortKeepsNames(s[1..]);
      InsertKeepsNames(s[0], sorted);
      assert Names(s) == [s[0].sharkName] + Names(s[1..]);
      assert Names([s[0]] + sorted) == [s[0].sharkName] + Names(sorted);
    }
  }

  lemma {:induction false} SortKeepsTies(s: seq<DistanceFromKings>, d: real)
    ensures AtDistance(SortByDistance(s), d) == AtDistance(s, d)
  {
    if s != [] {
      var sorted := SortByDistance(s[1..]);
      calc {
        AtDistance(SortByDistance(s), d);
        { InsertKeepsTies(s[0], sorted, d); }
        AtDistance([s[0]] + sorted, d);
        { AtDistanceSplits([s[0]], sorted, d); }
        AtDistance([s[0]], d) + AtDistance(sorted, d);
        { SortKeepsTies(s[1..], d); }
        AtDistance([s[0]], d) + AtDistance(s[1..], d);
        { AtDistanceSplits([s[0]], s[1..], d); assert [s[0]] + s[1..] == s; }
        AtDistance(s, d);
      }
    }
  }

  /**
   * The sort's result is in ascending distance, holds the same entries (and names) as its
   * input, and keeps the input order among entries at equal distance.
   */
  lemma SortByDistanceIsStable(s: seq<DistanceFromKings>)
    ensures Ascending(SortByDistance(s))
    ensures multiset(SortByDistance(s)) == multiset(s)
    ensures multiset(Names(SortByDistance(s))) == multiset(Names(s))
    ensures forall d :: AtDistance(SortByDistance(s), d) == AtDistance(s, d)
  {
    SortKeepsAscending(s);
    SortKeepsEntries(s);
    SortKeepsNames(s);
    forall d ensures AtDistance(SortByDistance(s), d) == AtDistance(s, d) {
      SortKeepsTies(s, d);
    }
  }

  // ---------------------------------------------------------------------------
  // updateFavouritesList, as a function of the profile, the files and the collaborators

  function EntriesFor(lines: seq<string>, c: Collaborators): (r: seq<DistanceFromKings>)
    ensures |r| == |lines|
    ensures forall i :: 0 <= i < |lines| ==> r[i] == EntryFor(lines[i], c)
  {
    seq(|lines|, i requires 0 <= i < |lines| => EntryFor(lines[i], c))
  }

  /** The first line index in [from, n) whose geocode request fails, or n. */
  function FirstFailure(ok: nat -> bool, from: nat, n: nat): (k: nat)
    requires from <= n
    ensures from <= k <= n
    ensures k < n ==> !ok(k)
    ensures forall i :: from <= i < k ==> ok(i)
    decreases n - from
  {
    if from == n then n else if !ok(from) then from else FirstFailure(ok, from + 1, n)
  }

  /** The entries the refresh collects, and whether an IOException cut it short. */
  datatype Refresh = Refresh(entries: seq<DistanceFromKings>, failed: bool)

  function Refreshed(profile: string, files: map<string, seq<string>>, c: Collaborators): Refresh {
    if profile !in files then Refresh([], true)
    else
      var lines := files[profile];
      var k := FirstFailure(c.geocodeOk, 0, |lines|);
      if k < |lines| then Refresh(EntriesFor(lines[..k + 1], c), true)
      else Refresh(SortByDistance(EntriesFor(lines, c)), false)
  }

  /**
   * A complete refresh lists exactly one entry per profile line, duplicates included,
   * in ascending distance, with lines at equal distance in file order.
   */
  lemma RefreshSucceeds(profile: string, files: map<string, seq<string>>, c: Collaborators)
    requires !Refreshed(profile, files, c).failed
    ensures profile in files
    ensures var r := Refreshed(profile, files, c).entries;
      && multiset(Names(r)) == multiset(files[profile])
      && (forall e :: e in r ==> e == EntryFor(e.sharkName, c))
      && Ascending(r)
      && forall d :: AtDistance(r, d) == AtDistance(EntriesFor(files[profile], c), d)
  {
    var lines := files[profile];
    var s := EntriesFor(lines, c);
    SortByDistanceIsStable(s);
    assert Names(s) == lines;
    forall e | e in SortByDistance(s)
      ensures e == EntryFor(e.sharkName, c)
    {
      assert e in multiset(s);
    }
  }

  /**
   * A refresh fails exactly when the profile is no readable file or some geocode request
   * fails. When reading worked, the entries are those of the lines up to and including the
   * first line whose geocode request failed, in file order and unsorted.
   */
  lemma RefreshFails(profile: string, files: map<string, seq<string>>, c: Collaborators)
    ensures Refreshed(profile, files, c).failed <==>
      profile !in files || exists i :: 0 <= i < |files[profile]| && !c.geocodeOk(i)
    ensures profile !in files ==> Refreshed(profile, files, c).entries == []
    ensures profile in files && Refreshed(profile, files, c).failed ==>
      var r := Refreshed(profile, files, c).entries;
      && 1 <= |r| <= |files[profile]|
      && Names(r) == files[profile][..|r|]
      && (forall i :: 0 <= i < |r| ==> r[i] == EntryFor(r[i].sharkName, c))
      && !c.geocodeOk(|r| - 1)
      && forall i :: 0 <= i < |r| - 1 ==> c.geocodeOk(i)
  {
    if profile in files {
      var lines := files[profile];
      var k := FirstFailure(c.geocodeOk, 0, |lines|);
      if k < |lines| {
        var r := EntriesFor(lines[..k + 1], c);
        assert Names(r) == lines[..k + 1];
      }
    }
  }

  /** Every entry of a refresh comes from the current profile: nothing of an earlier list survives. */
  lemma RefreshUsesOnlyProfile(profile: string, files: map<string, seq<string>>, c: Collaborators, e: DistanceFromKings)
    requires e in Refreshed(profile, files, c).entries
    ensures profile in files && e.sharkName in files[profile]
  {
    var r := Refreshed(profile, files, c).entries;
    var i :| 0 <= i < |r| && r[i] == e;
    if Refreshed(profile, files, c).failed {
      RefreshFails(profile, files, c);
      assert Names(r)[i] == files[profile][..|r|][i];
    } else {
      RefreshSucceeds(profile, files, c);
      assert Names(r)[i] in multiset(files[profile]);
    }
  }

  /** How a call into the frame ends. */
  datatype Outcome =
    | Completed       // the call returned
    | AwaitingInput   // a dialog loop is still prompting when the given answers run out
    | NullPointer     // a NullPointerException ends the call

  /** The list, the favourites button, and the outcome after updateFavouritesList. */
  datatype View = View(model: seq<DistanceFromKings>, enabled: bool, outcome: Outcome)

  /**
   * A failed refresh disables the start frame's favourites button; before the start frame
   * is attached that call dereferences null, so the list stays cleared.
   */
  function AfterUpdate(profile: string, files: map<string, seq<string>>, enabled: bool, attached: bool, c: Collaborators): View {
    var r := Refreshed(profile, files, c);
    if r.failed && !attached then View([], enabled, NullPointer)
    else View(r.entries, enabled && !r.failed, Completed)
  }

  /**
   * How a menu action ends once it has refreshed the list: it then clears the search frame's
   * results, and the search frame is null until the partner frames are attached.
   */
  function MenuOutcome(v: View, attached: bool): Outcome {
    if attached then v.outcome else NullPointer
  }

  /** The start frame enables its favourites button unless the profile is a file with no lines. */
  function StartupEnablesFavourites(files: map<string, seq<string>>, profile: string): bool {
    !(profile in files && files[profile] == [])
  }

  // ---------------------------------------------------------------------------
  // The Create and Load dialogs, as functions of the answers typed (None: Cancel)

  function ProfilePath(name: string): string {
    "lib/" + name + ".txt"
  }

  /** An answer the Create dialog turns down: a name whose path is an existing file or directory. */
  predicate CreateRejects(answer: Option<string>, files: map<string, seq<string>>, directories: set<string>) {
    answer.Some? && |answer.value| > 0 &&
    (ProfilePath(answer.value) in files || ProfilePath(answer.value) in directories)
  }

  /** An answer the Load dialog accepts: a name whose path is an existing regular file. */
  predicate LoadAccepts(answer: Option<string>, files: map<string, seq<string>>) {
    answer.Some? && |answer.value| > 0 && ProfilePath(answer.value) in files
  }

  datatype CreateEnd =
    | Accepted(path: string)            // a fresh name ended the loop
    | Cancelled(file: Option<string>)   // Cancel or an empty name ended it; `file` as the last rejection left it
    | StillPrompting

  function CreateDialog(answers: seq<Option<string>>, files: map<string, seq<string>>, directories: set<string>, file: Option<string>): CreateEnd {
    if answers == [] then StillPrompting
    else if answers[0].None? || |answers[0].value| == 0 then Cancelled(file)
    else
      var path := ProfilePath(answers[0].value);
      if path !in files && path !in directories then Accepted(path)
      else CreateDialog(answers[1..], files, directories, Some(path))
  }

  /** The path the Load dialog accepts, or None while it keeps prompting. */
  function LoadDialog(answers: seq<Option<string>>, files: map<string, seq<string>>): Option<string> {
    if answers == [] then None
    else if LoadAccepts(answers[0], files) then Some(ProfilePath(answers[0].value))
    else LoadDialog(answers[1..], files)
  }

  /**
   * The Create dialog stops at the first answer it does not turn down: a fresh name is
   * accepted, and Cancel or an empty name leaves the file of the answer before (none on
   * the first prompt). When it turns every answer down it is still prompting.
   */
  lemma {:induction false} CreateDialogStops(answers: seq<Option<string>>, files: map<string, seq<string>>, directories: set<string>, file: Option<string>, i: nat)
    requires i <= |answers|
    requires forall j {:trigger answers[j]} :: 0 <= j < i ==> CreateRejects(answers[j], files, directories)
    ensures i == |answers| ==> CreateDialog(answers, files, directories, file) == StillPrompting
    ensures i < |answers| && !CreateRejects(answers[i], files, directories) ==>
      CreateDialog(answers, files, directories, file) ==
        if answers[i].Some? && |answers[i].value| > 0 then Accepted(ProfilePath(answers[i].value))
        else Cancelled(if i > 0 && answers[i - 1].Some? then Some(ProfilePath(answers[i - 1].value)) else file)
  {
    if i > 0 {
      assert CreateRejects(answers[0], files, directories);
      forall j | 0 <= j < i - 1
        ensures CreateRejects(answers[1..][j], files, directories)
      {
        assert answers[1..][j] == answers[j + 1];
      }
      CreateDialogStops(answers[1..], files, directories, Some(ProfilePath(answers[0].value)), i - 1);
      if i > 1 {
        assert answers[1..][i - 2] == answers[i - 1];
      }
    }
  }

  /** Create accepts only a path that is neither an existing file nor a directory. */
  lemma {:induction false} CreateAcceptsOnlyFresh(answers: seq<Option<string>>, files: map<string, seq<string>>, directories: set<string>, file: Option<string>)
    requires CreateDialog(answers, files, directories, file).Accepted?
    ensures var p := CreateDialog(answers, files, directories, file).path;
      p !in files && p !in directories &&
      exists j :: 0 <= j < |answers| && answers[j].Some? && p == ProfilePath(answers[j].value)
  {
    if answers != [] && answers[0].Some? && |answers[0].value| > 0 {
      var path := ProfilePath(answers[0].value);
      if path in files || path in directories {
        CreateAcceptsOnlyFresh(answers[1..], files, directories, Some(path));
        var p := CreateDialog(answers, files, directories, file).path;
        var j :| 0 <= j < |answers[1..]| && answers[1..][j].Some? && p == ProfilePath(answers[1..][j].value);
        assert answers[j + 1] == answers[1..][j];
      }
    }
  }

  /**
   * The Load dialog accepts the first answer naming an existing regular file; Cancel, empty
   * names and missing or directory paths do not end it.
   */
  lemma {:induction false} LoadDialogFindsFirst(answers: seq<Option<string>>, files: map<string, seq<string>>)
    ensures LoadDialog(answers, files).None? <==> forall j :: 0 <= j < |answers| ==> !LoadAccepts(answers[j], files)
    ensures LoadDialog(answers, files).Some? ==>
      exists i :: 0 <= i < |answers| && LoadAccepts(answers[i], files) &&
        LoadDialog(answers, files) == Some(ProfilePath(answers[i].value)) &&
        forall j :: 0 <= j < i ==> !LoadAccepts(answers[j], files)
  {
    if answers != [] && !LoadAccepts(answers[0], files) {
      LoadDialogFindsFirst(answers[1..], files);
      assert forall j :: 1 <= j < |answers| ==> answers[j] == answers[1..][j - 1];
      if LoadDialog(answers, files).Some? {
        var i :| 0 <= i < |answers[1..]| && LoadAccepts(answers[1..][i], files) &&
          LoadDialog(answers[1..], files) == Some(ProfilePath(answers[1..][i].value)) &&
          forall j :: 0 <= j < i ==> !LoadAccepts(answers[1..][j], files);
        assert LoadAccepts(answers[i + 1], files);
      }
    }
  }

  // ---------------------------------------------------------------------------
  // The most recent ping of a favourite: past 24 hours, then past week, then past month

  datatype LastPing = NoPingData | PingAt(time: string)

  /** The window the lookup reads: the first whose ordered pings contain the shark, else none. */
  function ChosenWindow(sharkName: string, past24Hours: seq<SharkTime>, pastWeek: seq<SharkTime>, pastMonth: seq<SharkTime>): seq<SharkTime> {
    var probe := Probe(Some(sharkName));
    if Contains(past24Hours, probe) then past24Hours
    else if Contains(pastWeek, probe) then pastWeek
    else if Contains(pastMonth, probe) then pastMonth
    else []
  }

  function MostRecentPing(sharkName: string, past24Hours: seq<SharkTime>, pastWeek: seq<SharkTime>, pastMonth: seq<SharkTime>): LastPing {
    var probe := Probe(Some(sharkName));
    var pings := ChosenWindow(sharkName, past24Hours, pastWeek, pastMonth);
    if |pings| == 0 then NoPingData
    else
      assert Contains(pings, probe);
      PingAt(pings[IndexOf(pings, probe)].time)
  }

  /** The text shown with the shark's details. */
  function PingText(p: LastPing): string {
    match p
    case NoPingData => NoPingMessage
    case PingAt(t) => t
  }

  /** Some sighting in the list is of the named shark. */
  predicate HasSighting(pings: seq<SharkTime>, sharkName: string) {
    exists j :: 0 <= j < |pings| && pings[j].name == Some(sharkName)
  }

  lemma ProbeContainsSighting(pings: seq<SharkTime>, sharkName: string)
    ensures Contains(pings, Probe(Some(sharkName))) <==> HasSighting(pings, sharkName)
  {
    forall p: SharkTime ensures Equals(Probe(Some(sharkName)), AsSharkTime(p)) <==> p.name == Some(sharkName) {
      ProbeFindsName(sharkName, p);
    }
  }

  /**
   * The lookup reads the past 24 hours when they hold a sighting of the shark, else the
   * past week when it holds one, else the past month when it holds one, else nothing.
   */
  lemma ChosenWindowIsFirstHolding(sharkName: string, past24Hours: seq<SharkTime>, pastWeek: seq<SharkTime>, pastMonth: seq<SharkTime>)
    ensures var w := ChosenWindow(sharkName, past24Hours, pastWeek, pastMonth);
      && (HasSighting(past24Hours, sharkName) ==> w == past24Hours)
      && (!HasSighting(past24Hours, sharkName) && HasSighting(pastWeek, sharkName) ==> w == pastWeek)
      && (!HasSighting(past24Hours, sharkName) && !HasSighting(pastWeek, sharkName) && HasSighting(pastMonth, sharkName) ==>
            w == pastMonth)
      && (!HasSighting(past24Hours, sharkName) && !HasSighting(pastWeek, sharkName) && !HasSighting(pastMonth, sharkName) ==>
            w == [])
  {
    ProbeContainsSighting(past24Hours, sharkName);
    ProbeContainsSighting(pastWeek, sharkName);
    ProbeContainsSighting(pastMonth, sharkName);
  }

  /**
   * The text shown is "No ping data available." when no window holds a sighting of the
   * shark; otherwise it is the time of the first sighting of the shark in the window read.
   */
  lemma MostRecentPingTakesFirstSighting(sharkName: string, past24Hours: seq<SharkTime>, pastWeek: seq<SharkTime>, pastMonth: seq<SharkTime>)
    ensures var r := MostRecentPing(sharkName, past24Hours, pastWeek, pastMonth);
      r.NoPingData? <==>
        !HasSighting(past24Hours, sharkName) && !HasSighting(pastWeek, sharkName) && !HasSighting(pastMonth, sharkName)
    ensures var r := MostRecentPing(sharkName, past24Hours, pastWeek, pastMonth);
      r.NoPingData? ==> PingText(r) == NoPingMessage
    ensures var r := MostRecentPing(sharkName, past24Hours, pastWeek, pastMonth);
      var w := ChosenWindow(sharkName, past24Hours, pastWeek, pastMonth);
      r.PingAt? ==>
        exists k :: 0 <= k < |w| && w[k].name == Some(sharkName) && PingText(r) == w[k].time &&
          forall j :: 0 <= j < k ==> w[j].name != Some(sharkName)
  {
    var probe := Probe(Some(sharkName));
    forall p: SharkTime ensures Equals(probe, AsSharkTime(p)) <==> p.name == Some(sharkName) {
      ProbeFindsName(sharkName, p);
    }
    ChosenWindowIsFirstHolding(sharkName, past24Hours, pastWeek, pastMonth);
    var w := ChosenWindow(sharkName, past24Hours, pastWeek, pastMonth);
    if |w| > 0 {
      var k := IndexOf(w, probe);
      assert w[k].name == Some(sharkName);
    }
  }

  /** In a list ordered most recent first, no sighting of the shark is later than its first one. */
  lemma FirstSightingIsLatest(w: seq<SharkTime>, sharkName: string)
    requires MostRecentFirst(w) && IndexOf(w, Probe(Some(sharkName))) >= 0
    ensures var k := IndexOf(w, Probe(Some(sharkName)));
      forall j :: 0 <= j < |w| && w[j].name == Some(sharkName) && w[j].time != w[k].time ==>
        Parse(w[k].time).Some? && Parse(w[j].time).Some? && !Before(Parse(w[k].time).value, Parse(w[j].time).value)
  {
    var probe := Probe(Some(sharkName));
    var k := IndexOf(w, probe);
    forall j | 0 <= j < |w| && w[j].name == Some(sharkName) && w[j].time != w[k].time
      ensures Parse(w[k].time).Some? && Parse(w[j].time).Some? && !Before(Parse(w[k].time).value, Parse(w[j].time).value)
    {
      ProbeFindsName(sharkName, w[j]);
      assert k <= j;
      MostRecentFirstIsDescending(w, k, j);
    }
  }

  /**
   * In a window ordered most recent first, no sighting of the shark is later than the one
   * the lookup reports.
   */
  lemma MostRecentPingIsLatest(sharkName: string, past24Hours: seq<SharkTime>, pastWeek: seq<SharkTime>, pastMonth: seq<SharkTime>)
    requires MostRecentFirst(past24Hours) && MostRecentFirst(pastWeek) && MostRecentFirst(pastMonth)
    ensures var r := MostRecentPing(sharkName, past24Hours, pastWeek, pastMonth);
      var w := ChosenWindow(sharkName, past24Hours, pastWeek, pastMonth);
      r.PingAt? ==>
        forall j :: 0 <= j < |w| && w[j].name == Some(sharkName) && w[j].time != r.time ==>
          Parse(r.time).Some? && Parse(w[j].time).Some? && !Before(Parse(r.time).value, Parse(w[j].time).value)
  {
    var w := ChosenWindow(sharkName, past24Hours, pastWeek, pastMonth);
    if |w| > 0 {
      assert MostRecentFirst(w);
      assert Contains(w, Probe(Some(sharkName)));
      FirstSightingIsLatest(w, sharkName);
    }
  }

  // ---------------------------------------------------------------------------
  // The frame's state and its operations

  class FavouritesFrame {
    /** Path of the profile in use. */
    var userProfile: string
    /** The list model shown in the frame. */
    var sharkListModel: seq<DistanceFromKings>
    /** Whether the start frame's favourites button is enabled. */
    var favouritesEnabled: bool
    /** Whether the start and search frames have been attached (addPartnerFrames). */
    var partnered: bool
    /** Regular files on disk, with their lines. */
    var files: map<string, seq<string>>
    /** Directories on disk. */
    var directories: set<string>

    ghost predicate Valid()
      reads this
    {
      files.Keys !! directories
    }

    constructor (files0: map<string, seq<string>>, directories0: set<string>)
      requires files0.Keys !! directories0
      ensures Valid()
      ensures userProfile == DefaultProfile && sharkListModel == [] && favouritesEnabled && !partnered
      ensures files == files0 && directories == directories0
    {
      userProfile := DefaultProfile;
      sharkListModel := [];
      favouritesEnabled := true;
      partnered := false;
      files := files0;
      directories := directories0;
    }

    /** Attaches the start frame, which enables its favourites button unless the profile is an empty file. */
    method AddPartnerFrames()
      requires Valid()
      modifies this
      ensures Valid()
      ensures partnered && favouritesEnabled == StartupEnablesFavourites(files, userProfile)
      ensures userProfile == old(userProfile) && sharkListModel == old(sharkListModel)
      ensures files == old(files) && directories == old(directories)
    {
      partnered := true;
      favouritesEnabled := StartupEnablesFavourites(files, userProfile);
    }

    /** Clears the list and refills it from the profile file. */
    method UpdateFavouritesList(c: Collaborators) returns (outcome: Outcome)
      requires Valid()
      modifies this
      ensures Valid()
      ensures var v := AfterUpdate(userProfile, files, old(favouritesEnabled), partnered, c);
        sharkListModel == v.model && favouritesEnabled == v.enabled && outcome == v.outcome
      ensures userProfile == old(userProfile) && partnered == old(partnered)
      ensures files == old(files) && directories == old(directories)
    {
      sharkListModel := [];
      var sharkDistances: seq<DistanceFromKings> := [];
      var failed := false;
      if userProfile !in files {
        failed := true;
      } else {
        var lines := files[userProfile];
        var i := 0;
        while i < |lines| && !failed
          invariant 0 <= i <= |lines|
          invariant userProfile == old(userProfile) && partnered == old(partnered)
          invariant files == old(files) && directories == old(directories)
          invariant favouritesEnabled == old(favouritesEnabled) && sharkListModel == []
          invariant sharkDistances == EntriesFor(lines[..i], c)
          invariant failed <==> i > 0 && !c.geocodeOk(i - 1)
          invariant forall j :: 0 <= j < i - 1 ==> c.geocodeOk(j)
          invariant !failed ==> forall j :: 0 <= j < i ==> c.geocodeOk(j)
        {
          var location := c.lastLocation(lines[i]);
          sharkDistances := sharkDistances + [DistanceFromKings(lines[i], location, c.milesFromKings(location))];
          if !c.geocodeOk(i) {
            failed := true;
          }
          i := i + 1;
        }
        ghost var k := FirstFailure(c.geocodeOk, 0, |lines|);
        if failed {
          assert k == i - 1;
        } else {
          assert lines[..i] == lines;
          sharkDistances := SortByDistance(sharkDistances);
        }
      }
      if failed {
        if !partnered {
          outcome := NullPointer;
          return;
        }
        favouritesEnabled := false;
      }
      var j := 0;
      while j < |sharkDistances|
        invariant 0 <= j <= |sharkDistances|
        invariant userProfile == old(userProfile) && partnered == old(partnered)
        invariant files == old(files) && directories == old(directories)
        invariant favouritesEnabled == (old(favouritesEnabled) && !failed)
        invariant sharkListModel == sharkDistances[..j]
      {
        sharkListModel := sharkListModel + [sharkDistances[j]];
        j := j + 1;
      }
      outcome := Completed;
    }

    /**
     * The Create menu item: prompts until a fresh name, Cancel or an empty name, creates the
     * file (createOk: createNewFile does not throw IOException), then refreshes the list.
     */
    method CreateProfile(answers: seq<Option<string>>, createOk: bool, c: Collaborators) returns (outcome: Outcome)
      requires Valid()
      modifies this
      ensures Valid()
      ensures partnered == old(partnered) && directories == old(directories)
      ensures match CreateDialog(answers, old(files), old(directories), None)
        case StillPrompting =>
          && outcome == AwaitingInput && userProfile == old(userProfile) && files == old(files)
          && sharkListModel == old(sharkListModel) && favouritesEnabled == old(favouritesEnabled)
        case Cancelled(None) =>
          && outcome == NullPointer && userProfile == old(userProfile) && files == old(files)
          && sharkListModel == old(sharkListModel) && favouritesEnabled == old(favouritesEnabled)
        case Cancelled(Some(_)) =>
          && userProfile == old(userProfile) && files == old(files)
          && var v := AfterUpdate(userProfile, files, old(favouritesEnabled), partnered, c);
             sharkListModel == v.model && favouritesEnabled == v.enabled && outcome == MenuOutcome(v, partnered)
        case Accepted(path) =>
          && userProfile == path
          && files == (if createOk then old(files)[path := []] else old(files))
          && var v := AfterUpdate(userProfile, files, old(favouritesEnabled), partnered, c);
             sharkListModel == v.model && favouritesEnabled == v.enabled && outcome == MenuOutcome(v, partnered)
    {
      var file: Option<string> := None;
      var existingUser := userProfile;
      ghost var result := CreateDialog(answers, files, directories, None);
      var i := 0;
      var ended := false;
      while i < |answers| && !ended
        invariant 0 <= i <= |answers|
        invariant files == old(files) && directories == old(directories)
        invariant sharkListModel == old(sharkListModel) && favouritesEnabled == old(favouritesEnabled)
        invariant partnered == old(partnered)
        invariant !ended ==> userProfile == existingUser && CreateDialog(answers[i..], files, directories, file) == result
        invariant ended && result.Accepted? ==> userProfile == result.path && file == Some(result.path)
        invariant ended ==> result.Cancelled? || result.Accepted?
        invariant ended && result.Cancelled? ==> userProfile == existingUser && file == result.file
        invariant file.Some? && !(ended && result.Accepted?) ==> file.value in files || file.value in directories
      {
        var answer := answers[i];
        assert answers[i..] == [answer] + answers[i + 1..];
        if answer.Some? && |answer.value| > 0 {
          userProfile := ProfilePath(answer.value);
          file := Some(userProfile);
          if userProfile !in files && userProfile !in directories {
            ended := true;
          } else {
            userProfile := existingUser;
          }
        } else {
          ended := true;
        }
        i := i + 1;
      }
      if !ended {
        assert answers[i..] == [];
        outcome := AwaitingInput;
        return;
      }
      if file.None? {
        outcome := NullPointer;
        return;
      }
      var path := file.value;
      if result.Accepted? {
        CreateAcceptsOnlyFresh(answers, old(files), old(directories), None);
      }
      if createOk && path !in files && path !in directories {
        files := files[path := []];
      }
      outcome := UpdateFavouritesList(c);
      if !partnered {
        outcome := NullPointer;
      }
    }

    /** The Load menu item: prompts until an existing profile is named, then refreshes the list. */
    method LoadProfile(answers: seq<Option<string>>, c: Collaborators) returns (outcome: Outcome)
      requires Valid()
      modifies this
      ensures Valid()
      ensures partnered == old(partnered) && files == old(files) && directories == old(directories)
      ensures match LoadDialog(answers, old(files))
        case None =>
          && outcome == AwaitingInput && userProfile == old(userProfile)
          && sharkListModel == old(sharkListModel) && favouritesEnabled == old(favouritesEnabled)
        case Some(path) =>
          && userProfile == path
          && var v := AfterUpdate(path, files, old(favouritesEnabled), partnered, c);
             sharkListModel == v.model && favouritesEnabled == v.enabled && outcome == MenuOutcome(v, partnered)
    {
      var existingUser := userProfile;
      ghost var result := LoadDialog(answers, files);
      var i := 0;
      var ended := false;
      while i < |answers| && !ended
        invariant 0 <= i <= |answers|
        invariant files == old(files) && directories == old(directories) && partnered == old(partnered)
        invariant sharkListModel == old(sharkListModel) && favouritesEnabled == old(favouritesEnabled)
        invariant !ended ==> userProfile == existingUser && LoadDialog(answers[i..], files) == result
        invariant ended ==> result == Some(userProfile)
      {
        var answer := answers[i];
        assert answers[i..] == [answer] + answers[i + 1..];
        if answer.Some? && |answer.value| > 0 {
          userProfile := ProfilePath(answer.value);
          if userProfile in files && userProfile !in directories {
            ended := true;
          } else {
            userProfile := existingUser;
          }
        }
        i := i + 1;
      }
      if !ended {
        assert answers[i..] == [];
        outcome := AwaitingInput;
        return;
      }
      outcome := UpdateFavouritesList(c);
      if !partnered {
        outcome := NullPointer;
      }
    }
  }

}
