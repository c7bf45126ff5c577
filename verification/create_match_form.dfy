/**
 * The create-match form (app/screens/CreateMatchScreen.tsx): loading the
 * complex named by the route, formatting the picked date and time,
 * validating the fields and building the match handed to the service.
 */
module CreateMatchForm {
  import opened Wrappers
  import opened Text
  import opened Levels
  import opened Favorites
  import opened ComplexService
  import opened MatchService

  /** The local calendar fields of a JavaScript `Date`; `month` is 0-based as `getMonth` returns it. */
  datatype Moment = Moment(year: int, month: nat, day: nat, hours: nat, minutes: nat)

  /** A calendar date `Date` could hold: 0-based month, day of month from 1. */
  predicate ValidDate(m: Moment)
  {
    m.month < 12 && 1 <= m.day <= 31
  }

  /** `formatDate`: 'YYYY-MM-DD' with month and day padded to two digits; the year is written unpadded. */
  function FormatDate(m: Moment): (r: string)
    ensures ValidDate(m) ==> |r| == |IntToString(m.year)| + 6
    ensures IntToString(m.year) <= r
    ensures ValidDate(m) ==> r[|IntToString(m.year)|] == '-' && r[|IntToString(m.year)| + 3] == '-'
  {
    var y, mm, dd := IntToString(m.year), TwoDigits(m.month + 1), TwoDigits(m.day);
    SplitDashed(y, mm, dd);
    PartLengths(m);
    y + "-" + mm + "-" + dd
  }

  lemma PartLengths(m: Moment)
    ensures ValidDate(m) ==> |TwoDigits(m.month + 1)| == 2 && |TwoDigits(m.day)| == 2
  {
    if ValidDate(m) {
      var month := m.month + 1;
      assert month < 100;
      assert |TwoDigits(month)| == 2;
      assert m.day < 100;
    }
  }

  /** For a four-digit year the date is ten characters, and each part reads back as the field it came from. */
  lemma FormatDateReadsBack(m: Moment)
    requires ValidDate(m) && 1000 <= m.year <= 9999
    ensures |FormatDate(m)| == 10
    ensures IsDigits(FormatDate(m)[..4]) && ParseDigits(FormatDate(m)[..4]) == m.year
    ensures IsDigits(FormatDate(m)[5..7]) && ParseDigits(FormatDate(m)[5..7]) == m.month + 1
    ensures IsDigits(FormatDate(m)[8..]) && ParseDigits(FormatDate(m)[8..]) == m.day
  {
    var y := IntToString(m.year);
    FourDigitYear(m.year);
    SplitDashed(y, TwoDigits(m.month + 1), TwoDigits(m.day));
  }

  lemma FourDigitYear(year: int)
    requires 1000 <= year <= 9999
    ensures |IntToString(year)| == 4 && IsDigits(IntToString(year))
    ensures ParseDigits(IntToString(year)) == year
  {
    NatToStringLength(year, 4);
    NatToStringLength(year, 3);
    assert Pow10(3) == 1000 && Pow10(4) == 10000;
    ParseNatToString(year);
  }

  /** The three parts of an 'A-B-C' string can be cut back out of it. */
  lemma SplitDashed(a: string, b: string, c: string)
    ensures |a + "-" + b + "-" + c| == |a| + |b| + |c| + 2
    ensures a <= a + "-" + b + "-" + c
    ensures (a + "-" + b + "-" + c)[|a|] == '-' && (a + "-" + b + "-" + c)[|a| + 1 + |b|] == '-'
    ensures (a + "-" + b + "-" + c)[..|a|] == a
    ensures (a + "-" + b + "-" + c)[|a| + 1..|a| + 1 + |b|] == b
    ensures (a + "-" + b + "-" + c)[|a| + 2 + |b|..] == c
  {
  }

  /** `formatTime`: 'HH:MM', each field padded to two digits. */
  function FormatTime(m: Moment): (r: string)
    ensures m.hours < 100 && m.minutes < 100 ==>
      && |r| == 5 && r[2] == ':'
      && IsDigits(r[..2]) && ParseDigits(r[..2]) == m.hours
      && IsDigits(r[3..]) && ParseDigits(r[3..]) == m.minutes
  {
    var hh, mm := TwoDigits(m.hours), TwoDigits(m.minutes);
    SplitColon(hh, mm);
    hh + ":" + mm
  }

  /** The two parts of an 'A:B' string can be cut back out of it. */
  lemma SplitColon(a: string, b: string)
    ensures |a + ":" + b| == |a| + |b| + 1 && (a + ":" + b)[|a|] == ':'
    ensures (a + ":" + b)[..|a|] == a && (a + ":" + b)[|a| + 1..] == b
  {
  }

  /**
   * `Number(s)` for a string that is decimal digits once trimmed (the empty
   * string reads as 0). Every other string is None, standing for NaN.
   */
  function NumberOf(s: string): (r: Option<nat>)
    ensures IsBlank(s) ==> r == Some(0)
    ensures r.Some? <==> IsDigits(Trim(s))
  {
    var t := Trim(s);
    if IsDigits(t) then Some(ParseDigits(t)) else None
  }

  /** Writing a count and reading it back with `Number` gives the count, with or without surrounding spaces. */
  lemma NumberOfNatToString(n: nat)
    ensures NumberOf(NatToString(n)) == Some(n)
    ensures NumberOf([' '] + NatToString(n) + [' ']) == Some(n)
  {
    var d := NatToString(n);
    assert !IsSpace(d[0]) && !IsSpace(d[|d| - 1]);
    TrimOfTrimmed(d);
    TrimPadded([' '] + d + [' '], d);
    ParseNatToString(n);
  }

  /** The form's state when it is submitted. */
  datatype Form = Form(
    name: string,
    description: string,
    level: Level,
    complex: Option<Complex>,
    date: Moment,
    time: Moment,
    playersRequired: string)

  /** The form as first shown: empty name and description, 'novato', no complex yet, ten players. */
  function InitialForm(now: Moment): (f: Form)
    ensures f.name == "" && f.description == "" && f.level == Novato && f.complex.None?
    ensures f.date == now && f.time == now
  {
    Form("", "", Novato, None, now, now, "10")
  }

  /** The initial player count reads as ten. */
  lemma InitialPlayersIsTen(now: Moment)
    ensures NumberOf(InitialForm(now).playersRequired) == Some(10)
  {
    TenReadsBack(InitialForm(now).playersRequired);
  }

  lemma TenReadsBack(s: string)
    requires s == "10"
    ensures NumberOf(s) == Some(10)
  {
    assert |s| == 2 && s[0] == '1' && s[1] == '0';
    TrimOfTrimmed(s);
    assert s[..1] == "1";
    assert ParseDigits(s[..1]) == 1;
  }

  /** The alerts `validateForm` can raise, in the order it checks them. */
  datatype FormError = MissingName | MissingComplex | InvalidPlayers

  /** The player count as the form sends it, when it is a number greater than one. */
  predicate PlayersAccepted(s: string)
  {
    NumberOf(s).Some? && NumberOf(s).value > 1
  }

  /** `validateForm`: None when the form may be sent, otherwise the first failing check. */
  function ValidateForm(f: Form): (r: Option<FormError>)
    ensures r.None? <==> !IsBlank(f.name) && f.complex.Some? && PlayersAccepted(f.playersRequired)
    ensures r == Some(MissingName) <==> IsBlank(f.name)
    ensures r == Some(MissingComplex) <==> !IsBlank(f.name) && f.complex.None?
    ensures r == Some(InvalidPlayers) <==>
      !IsBlank(f.name) && f.complex.Some? && !PlayersAccepted(f.playersRequired)
  {
    if Trim(f.name) == [] then Some(MissingName)
    else if f.complex.None? then Some(MissingComplex)
    else match NumberOf(f.playersRequired)
      case None => Some(InvalidPlayers)
      case Some(n) => if n <= 1 then Some(InvalidPlayers) else None
  }

  /** The form as first shown is always refused for its empty name. */
  lemma InitialFormNeedsName(now: Moment)
    ensures ValidateForm(InitialForm(now)) == Some(MissingName)
  {
  }

  /**
   * The record `handleCreateMatch` builds from the form, the loaded complex
   * and the parsed player count.
   */
  function MatchOfForm(f: Form, complex: Complex, required: int): (m: NewMatch)
    ensures m.name == f.name && m.level == f.level && m.description == Some(f.description)
    ensures m.complexId == complex.id && m.complexName == complex.name
    ensures m.date == FormatDate(f.date) && m.time == FormatTime(f.time)
    ensures m.players.current == 1 && m.players.required == required
    ensures required > 1 ==> m.players.current < m.players.required
  {
    NewMatch(
      f.name,
      complex.id,
      complex.name,
      FormatDate(f.date),
      FormatTime(f.time),
      Players(1, required),
      f.level,
      Some(f.description))
  }

  /** What submitting the form leads to. */
  datatype Submission = Refused(error: FormError) | Created(created: Match, catalog: seq<Match>)

  /** `handleCreateMatch`: validate, then hand the built match to `createMatch`. */
  function HandleCreateMatch(catalog: seq<Match>, f: Form, freshId: string): (r: Submission)
    ensures r.Refused? <==> ValidateForm(f).Some?
    ensures r.Refused? ==> Some(r.error) == ValidateForm(f)
    ensures r.Created? ==> r.catalog == catalog && r.created.id == freshId
    ensures r.Created? ==> f.complex.Some? && NumberOf(f.playersRequired).Some?
    ensures r.Created? ==>
      WithoutId(r.created) == MatchOfForm(f, f.complex.value, NumberOf(f.playersRequired).value)
    ensures r.Created? ==> Some(r.created.players.required) == NumberOf(f.playersRequired)
    ensures r.Created? ==> WellFormedPlayers(r.created)
  {
    match ValidateForm(f)
    case Some(e) => Refused(e)
    case None =>
      var m := MatchOfForm(f, f.complex.value, NumberOf(f.playersRequired).value);
      var (created, after) := CreateMatch(catalog, m, freshId);
      Created(created, after)
  }

  /** The name is sent as typed: surrounding spaces survive validation. */
  lemma NameSentUntrimmed(catalog: seq<Match>, f: Form, freshId: string)
    ensures HandleCreateMatch(catalog, f, freshId).Created? ==>
      HandleCreateMatch(catalog, f, freshId).created.name == f.name
  {
    if ValidateForm(f).None? {
      WithIdRoundTrip(MatchOfForm(f, f.complex.value, NumberOf(f.playersRequired).value), freshId);
    }
  }

  /** Any count above one that the form writes as digits is accepted and sent as that number. */
  lemma PlayersRoundTrip(catalog: seq<Match>, f: Form, freshId: string, n: nat)
    requires !IsBlank(f.name) && f.complex.Some?
    requires f.playersRequired == NatToString(n) && n > 1
    ensures HandleCreateMatch(catalog, f, freshId).Created?
    ensures HandleCreateMatch(catalog, f, freshId).created.players.required == n
  {
    NumberOfNatToString(n);
  }

  /** Counts of zero and one are refused, as is an empty field. */
  lemma TooFewPlayersRefused(f: Form)
    requires !IsBlank(f.name) && f.complex.Some?
    requires f.playersRequired == "" || f.playersRequired == "0" || f.playersRequired == "1"
    ensures ValidateForm(f) == Some(InvalidPlayers)
  {
    NumberOfNatToString(0);
    NumberOfNatToString(1);
    assert NatToString(0) == "0" && NatToString(1) == "1";
  }

  /**
   * `loadComplex`: nothing for an empty route id, otherwise the catalog entry
   * `getComplexById` finds, if any.
   */
  function LoadComplex(catalog: seq<Complex>, complexId: string): (r: Option<Complex>)
    ensures complexId == "" ==> r.None?
    ensures r.Some? ==> r.value in catalog && r.value.id == complexId
    ensures complexId != "" && r.None? ==> forall c :: c in catalog ==> c.id != complexId
  {
    if complexId == "" then None else GetComplexById(catalog, complexId)
  }

  /** A created match names the complex the route asked for, and looking that id up finds the same complex. */
  lemma CreatedMatchNamesRouteComplex(
    complexes: seq<Complex>, catalog: seq<Match>, f: Form, complexId: string, freshId: string)
    requires f.complex == LoadComplex(complexes, complexId)
    ensures HandleCreateMatch(catalog, f, freshId).Created? ==>
      && HandleCreateMatch(catalog, f, freshId).created.complexId == complexId
      && GetComplexById(complexes, complexId) == f.complex
      && HandleCreateMatch(catalog, f, freshId).created.complexName == f.complex.value.name
  {
    if ValidateForm(f).None? {
      WithIdRoundTrip(MatchOfForm(f, f.complex.value, NumberOf(f.playersRequired).value), freshId);
    }
  }
}
