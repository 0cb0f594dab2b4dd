/**
 * A shark sighting ("ping"): a shark name and a time written "yyyy-MM-dd HH:mm:ss".
 * Sightings are ordered most recent first, and two sightings are the same object
 * for list lookups exactly when they carry the same name.
 */
module SharkTimes {
  import opened Options
  import opened Numerals
  import JavaInt

  /** A name and a time; the name is None where the API handed over null. */
  datatype SharkTime = SharkTime(name: Option<string>, time: string)

  /** The six fields of a time, as the fixed-width layout gives them. */
  datatype DateTime = DateTime(year: nat, month: nat, day: nat, hour: nat, minute: nat, second: nat)

  /** The time carried by a probe built from a name alone. */
  const ProbeTime: string := "0000-00-00 00:00:00"

  /** The one-argument constructor: a sighting used only to look a shark up by name. */
  function Probe(name: Option<string>): (p: SharkTime)
    ensures p.name == name && p.time == ProbeTime
  {
    SharkTime(name, ProbeTime)
  }

  // ---------------------------------------------------------------------------
  // The time layout "yyyy-MM-dd HH:mm:ss"

  predicate WellFormed(s: string) {
    && |s| == 19
    && AllDigits(s[0..4]) && s[4] == '-'
    && AllDigits(s[5..7]) && s[7] == '-'
    && AllDigits(s[8..10]) && s[10] == ' '
    && AllDigits(s[11..13]) && s[13] == ':'
    && AllDigits(s[14..16]) && s[16] == ':'
    && AllDigits(s[17..19])
  }

  /** Each field fits the number of digits the layout gives it. */
  predicate Fits(t: DateTime) {
    t.year < 10000 && t.month < 100 && t.day < 100 && t.hour < 100 && t.minute < 100 && t.second < 100
  }

  /** Reads a time in the layout; None where the text does not follow it. */
  function Parse(s: string): (r: Option<DateTime>)
    ensures r.Some? <==> WellFormed(s)
    ensures r.Some? ==> Fits(r.value)
  {
    if WellFormed(s) then
      Some(DateTime(DigitsValue(s[0..4]), DigitsValue(s[5..7]), DigitsValue(s[8..10]),
                    DigitsValue(s[11..13]), DigitsValue(s[14..16]), DigitsValue(s[17..19])))
    else
      None
  }

  /** Writes a time in the layout. */
  function Format(t: DateTime): string
    requires Fits(t)
  {
    Padded(t.year, 4) + "-" + Padded(t.month, 2) + "-" + Padded(t.day, 2) + " " +
    Padded(t.hour, 2) + ":" + Padded(t.minute, 2) + ":" + Padded(t.second, 2)
  }

  lemma FormatThenParse(t: DateTime)
    requires Fits(t)
    ensures Parse(Format(t)) == Some(t)
  {
    var s := Format(t);
    assert s[0..4] == Padded(t.year, 4);
    assert s[5..7] == Padded(t.month, 2);
    assert s[8..10] == Padded(t.day, 2);
    assert s[11..13] == Padded(t.hour, 2);
    assert s[14..16] == Padded(t.minute, 2);
    assert s[17..19] == Padded(t.second, 2);
    PaddedRoundTrip(t.year, 4);
    PaddedRoundTrip(t.month, 2);
    PaddedRoundTrip(t.day, 2);
    PaddedRoundTrip(t.hour, 2);
    PaddedRoundTrip(t.minute, 2);
    PaddedRoundTrip(t.second, 2);
  }

  lemma ParseThenFormat(s: string)
    requires Parse(s).Some?
    ensures Format(Parse(s).value) == s
  {
    PaddedOfDigits(s[0..4]);
    PaddedOfDigits(s[5..7]);
    PaddedOfDigits(s[8..10]);
    PaddedOfDigits(s[11..13]);
    PaddedOfDigits(s[14..16]);
    PaddedOfDigits(s[17..19]);
    assert s == s[0..4] + "-" + s[5..7] + "-" + s[8..10] + " " + s[11..13] + ":" + s[14..16] + ":" + s[17..19];
  }

  // ---------------------------------------------------------------------------
  // Instants and compareTo

  /** a is an earlier instant than b: the fields compared from year down to second. */
  predicate Before(a: DateTime, b: DateTime) {
    || a.year < b.year
    || (a.year == b.year && a.month < b.month)
    || (a.year == b.year && a.month == b.month && a.day < b.day)
    || (a.year == b.year && a.month == b.month && a.day == b.day && a.hour < b.hour)
    || (a.year == b.year && a.month == b.month && a.day == b.day && a.hour == b.hour && a.minute < b.minute)
    || (a.year == b.year && a.month == b.month && a.day == b.day && a.hour == b.hour && a.minute == b.minute
        && a.second < b.second)
  }

  lemma BeforeIsStrictTotalOrder(a: DateTime, b: DateTime, c: DateTime)
    ensures !Before(a, a)
    ensures Before(a, b) ==> !Before(b, a)
    ensures Before(a, b) && Before(b, c) ==> Before(a, c)
    ensures a == b || Before(a, b) || Before(b, a)
  {
  }

  /**
   * compareTo: 1 when this sighting is earlier than the other, -1 when later, 0 when
   * at the same instant, so that an ascending sort puts the most recent first.
   * None stands for the NullPointerException thrown when either time does not parse.
   */
  function CompareTo(a: SharkTime, b: SharkTime): (r: Option<int>)
    ensures r.None? <==> Parse(a.time).None? || Parse(b.time).None?
    ensures r == Some(1) <==> Parse(a.time).Some? && Parse(b.time).Some? && Before(Parse(a.time).value, Parse(b.time).value)
    ensures r == Some(-1) <==> Parse(a.time).Some? && Parse(b.time).Some? && Before(Parse(b.time).value, Parse(a.time).value)
    ensures r == Some(0) <==> Parse(a.time).Some? && Parse(b.time).Some? && Parse(a.time) == Parse(b.time)
  {
    match (Parse(a.time), Parse(b.time))
    case (Some(first), Some(second)) =>
      if Before(first, second) then Some(1)
      else if Before(second, first) then Some(-1)
      else Some(0)
    case _ => None
  }

  lemma CompareToAntisymmetric(a: SharkTime, b: SharkTime)
    ensures CompareTo(a, b).Some? ==> CompareTo(b, a) == Some(-CompareTo(a, b).value)
  {
  }

  lemma CompareToTransitive(a: SharkTime, b: SharkTime, c: SharkTime)
    ensures CompareTo(a, b) == Some(1) && CompareTo(b, c) == Some(1) ==> CompareTo(a, c) == Some(1)
    ensures CompareTo(a, b) == Some(0) && CompareTo(b, c).Some? ==> CompareTo(a, c) == CompareTo(b, c)
  {
  }

  /** Two well-formed sightings compare equal exactly when their time strings are equal, whatever their names. */
  lemma {:induction false} CompareToZeroIffSameTime(a: SharkTime, b: SharkTime)
    requires WellFormed(a.time) && WellFormed(b.time)
    ensures CompareTo(a, b) == Some(0) <==> a.time == b.time
  {
    if CompareTo(a, b) == Some(0) {
      ParseThenFormat(a.time);
      ParseThenFormat(b.time);
    }
  }

  /** A list as `Collections.sort` leaves it under compareTo: no sighting before a later one. */
  predicate MostRecentFirst(s: seq<SharkTime>) {
    forall i, j :: 0 <= i < j < |s| ==> CompareTo(s[i], s[j]).Some? && CompareTo(s[i], s[j]).value <= 0
  }

  lemma MostRecentFirstIsDescending(s: seq<SharkTime>, i: nat, j: nat)
    requires MostRecentFirst(s) && i < j < |s|
    ensures Parse(s[i].time).Some? && Parse(s[j].time).Some?
    ensures !Before(Parse(s[i].time).value, Parse(s[j].time).value)
  {
    assert CompareTo(s[i], s[j]).Some? && CompareTo(s[i], s[j]).value <= 0;
  }

  // ---------------------------------------------------------------------------
  // Identity: equals and hashCode look at the name only

  /** The argument of equals: null, an object of another class (such as a plain Ping), or a SharkTime. */
  datatype Object = NullRef | Foreign | AsSharkTime(st: SharkTime)

  /** equals: only another SharkTime with the same (possibly null) name is equal. */
  function Equals(a: SharkTime, obj: Object): (r: bool)
    ensures r <==> obj.AsSharkTime? && obj.st.name == a.name
  {
    match obj
    case NullRef => false
    case Foreign => false
    case AsSharkTime(other) =>
      if a.name.None? then other.name.None?
      else other.name.Some? && a.name.value == other.name.value
  }

  /** hashCode: 31 * 1 + the name's String.hashCode (0 for a null name), in int arithmetic. */
  function HashCode(a: SharkTime): (h: JavaInt.Int32)
    ensures a.name.None? ==> h == 31
  {
    JavaInt.Wrap(31 * 1 + (if a.name.None? then 0 else JavaInt.StringHash(a.name.value)))
  }

  /** For a named sighting the hash is 31 plus the documented String.hashCode polynomial, in int arithmetic. */
  lemma HashCodeOfName(a: SharkTime)
    requires a.name.Some?
    ensures HashCode(a) == JavaInt.Wrap(31 + JavaInt.HashPolynomial(a.name.value))
  {
    var h := JavaInt.StringHash(a.name.value);
    var p := JavaInt.HashPolynomial(a.name.value);
    JavaInt.StringHashIsPolynomial(a.name.value);
    var q := -((p - h) / JavaInt.MODULUS);
    assert h - p == JavaInt.MODULUS * q;
    JavaInt.WrapAgrees(31 + h, 31 + p, q);
  }

  lemma EqualsIsEquivalence(a: SharkTime, b: SharkTime, c: SharkTime)
    ensures Equals(a, AsSharkTime(a))
    ensures Equals(a, AsSharkTime(b)) ==> Equals(b, AsSharkTime(a))
    ensures Equals(a, AsSharkTime(b)) && Equals(b, AsSharkTime(c)) ==> Equals(a, AsSharkTime(c))
  {
  }

  lemma EqualObjectsHaveEqualHashes(a: SharkTime, b: SharkTime)
    requires Equals(a, AsSharkTime(b))
    ensures HashCode(a) == HashCode(b)
  {
  }

  /** The probe for a name equals every sighting of that shark and no other. */
  lemma ProbeFindsName(name: string, p: SharkTime)
    ensures Equals(Probe(Some(name)), AsSharkTime(p)) <==> p.name == Some(name)
  {
  }

  // ---------------------------------------------------------------------------
  // ArrayList lookups with a probe: indexOf calls probe.equals on each element in turn

  function IndexOf(s: seq<SharkTime>, probe: SharkTime): (r: int)
    ensures -1 <= r < |s|
    ensures r >= 0 ==> Equals(probe, AsSharkTime(s[r]))
    ensures r >= 0 ==> forall j :: 0 <= j < r ==> !Equals(probe, AsSharkTime(s[j]))
    ensures r == -1 <==> forall j :: 0 <= j < |s| ==> !Equals(probe, AsSharkTime(s[j]))
  {
    if s == [] then -1
    else if Equals(probe, AsSharkTime(s[0])) then 0
    else
      var k := IndexOf(s[1..], probe);
      assert forall j :: 1 <= j < |s| ==> s[j] == s[1..][j - 1];
      if k < 0 then -1 else k + 1
  }

  function Contains(s: seq<SharkTime>, probe: SharkTime): (r: bool)
    ensures r <==> exists j :: 0 <= j < |s| && Equals(probe, AsSharkTime(s[j]))
  {
    IndexOf(s, probe) >= 0
  }

}
