/** Opening-hours normalisation and the courier-row to listing-row mapping
    (src/utils/gmbConverter.ts). */
module GmbConverter {
  import opened JsValues

  // ---------------------------------------------------------------------
  // Time shapes recognised by the anchored regular expressions
  // ---------------------------------------------------------------------

  /** `^\d{2}:\d{2}$` */
  predicate IsHHMM(s: string) {
    |s| == 5 && IsDigit(s[0]) && IsDigit(s[1]) && s[2] == ':' && IsDigit(s[3]) && IsDigit(s[4])
  }

  /** `^\d{2}:\d{2}:\d{2}$` */
  predicate IsHHMMSS(s: string) {
    |s| == 8 && IsHHMM(s[..5]) && s[5] == ':' && IsDigit(s[6]) && IsDigit(s[7])
  }

  /** `^\d:\d{2}$` */
  predicate IsHMM(s: string) {
    |s| == 4 && IsDigit(s[0]) && s[1] == ':' && IsDigit(s[2]) && IsDigit(s[3])
  }

  /** `^\d:\d{2}(:\d{2})?$` */
  predicate IsHMMOptSS(s: string) {
    IsHMM(s) || (|s| == 7 && IsHMM(s[..4]) && s[4] == ':' && IsDigit(s[5]) && IsDigit(s[6]))
  }

  /** The raw values that mean "no time" before any trimming. */
  predicate IsNoTimeSentinel(time: string) {
    time == "" || time == "00:00:00" || time == "00:00"
  }

  /** The trimmed shapes `formatTime` turns into a time. */
  predicate IsAcceptedShape(clean: string) {
    IsHHMM(clean) || IsHHMMSS(clean) || IsHMMOptSS(clean)
  }

  /** `formatTime`: a time string becomes `HH:MM`, or `''` for "no time".
      The sentinels are compared before trimming, and hours and minutes are
      never range-checked. */
  function FormatTime(time: string): (r: string)
    ensures r == "" || IsHHMM(r)
    ensures IsNoTimeSentinel(time) ==> r == ""
  {
    if IsNoTimeSentinel(time) then ""
    else
      var clean := Trim(time);
      if IsHHMM(clean) then clean
      else if IsHHMMSS(clean) then clean[..5]
      // `indexOf(':') + 3` is 4 here: the only ':' before the minutes is at index 1.
      else if IsHMMOptSS(clean) then "0" + clean[..4]
      else ""
  }

  /** `isValidTime` */
  predicate IsValidTime(time: string): (b: bool)
    ensures b ==> !IsNoTimeSentinel(time) && IsHHMM(FormatTime(time))
  {
    var formatted := FormatTime(time);
    formatted != "" && formatted != "00:00"
  }

  /** `formatTime` yields a time exactly when the raw value is not one of the
      sentinels and its trimmed form has one of the three accepted shapes. */
  lemma FormatTimeDefinedIff(time: string)
    ensures FormatTime(time) != "" <==> !IsNoTimeSentinel(time) && IsAcceptedShape(Trim(time))
  {
  }

  /** When a time comes out, its hour digits and minute digits are those of
      the trimmed input, a one-digit hour getting a leading zero, and any
      seconds are dropped. */
  lemma FormatTimeCopiesDigits(time: string)
    requires FormatTime(time) != ""
    ensures var clean := Trim(time);
      if clean[1] == ':'
      then FormatTime(time) == ['0', clean[0], ':', clean[2], clean[3]]
      else FormatTime(time) == [clean[0], clean[1], ':', clean[3], clean[4]]
  {
  }

  /** Normalising twice changes nothing, except that a result of `'00:00'`
      is itself a sentinel and normalises to `''`. */
  lemma FormatTimeIdempotent(time: string)
    ensures var once := FormatTime(time);
      FormatTime(once) == if once == "00:00" then "" else once
  {
    var once := FormatTime(time);
    if once != "" {
      TrimUntouched(once);
    }
  }

  /** A raw value that is not a sentinel and trims to a time is normalised
      to that time. */
  lemma FormatTimeOfClean(time: string, clean: string)
    requires !IsNoTimeSentinel(time) && Trim(time) == clean && IsHHMM(clean)
    ensures FormatTime(time) == clean
  {
  }

  /** A raw value that is not a sentinel and trims to `H:MM` gets a leading zero. */
  lemma FormatTimeOfShortHour(time: string)
    requires !IsNoTimeSentinel(time) && Trim(time) == time && IsHMM(time)
    ensures FormatTime(time) == ['0', time[0], ':', time[2], time[3]]
  {
  }

  /** A value that trims to three characters has none of the accepted shapes. */
  lemma FormatTimeOfThreeChars(time: string)
    requires |Trim(time)| == 3
    ensures FormatTime(time) == ""
  {
  }

  /** `'0:00'` is padded to `'00:00'`, although `'00:00'` itself is the
      "no time" sentinel. */
  lemma FormatTimePadsZeroHour()
    ensures FormatTime("00:00") == ""
    ensures FormatTime("0:00") == "00:00"
  {
    assert IsNoTimeSentinel("00:00");
    assert |"0:00"| == 4;
    TrimUntouched("0:00");
    FormatTimeOfShortHour("0:00");
  }

  /** The sentinel test runs before trimming, so a padded `' 00:00'` passes it. */
  lemma FormatTimeTrimsAfterSentinel()
    ensures FormatTime(" 00:00") == "00:00"
  {
    assert |" 00:00"| == 6;
    TrimLeadingBlank();
    FormatTimeOfClean(" 00:00", "00:00");
  }

  lemma TrimLeadingBlank()
    ensures Trim(" 00:00") == "00:00"
  {
    assert " 00:00"[1..] == "00:00";
    TrimUntouched("00:00");
  }

  /** A raw value that is already a well-formed `HH:MM`, other than the
      sentinel, is returned unchanged. */
  lemma FormatTimeKeepsHHMM(time: string)
    requires IsHHMM(time) && time != "00:00"
    ensures FormatTime(time) == time
  {
    assert |time| == 5;
    TrimUntouched(time);
    FormatTimeOfClean(time, time);
  }

  /** Seconds are dropped. */
  lemma FormatTimeDropsSeconds()
    ensures FormatTime("9:05:30") == "09:05"
  {
    TrimUntouched("9:05:30");
    assert !IsHHMM("9:05:30") && !IsHHMMSS("9:05:30");
    assert IsHMM("9:05:30"[..4]);
    assert "9:05:30"[..4] == "9:05";
  }

  /** A one-digit minute, as in `'9:5'`, is rejected. */
  lemma FormatTimeRejectsShortMinute(h: char, m: char)
    requires IsDigit(h) && IsDigit(m)
    ensures FormatTime([h, ':', m]) == ""
  {
    TrimUntouched([h, ':', m]);
    FormatTimeOfThreeChars([h, ':', m]);
  }

  /** Hours and minutes are not range-checked. */
  lemma FormatTimeNoRangeCheck()
    ensures FormatTime("99:99") == "99:99"
  {
    FormatTimeKeepsHHMM("99:99");
  }

  /** A valid time is exactly one that normalises to a time other than `'00:00'`. */
  lemma IsValidTimeMeaning(time: string)
    ensures IsValidTime(time) <==> IsHHMM(FormatTime(time)) && FormatTime(time) != "00:00"
  {
  }

  // ---------------------------------------------------------------------
  // One day's schedule token
  // ---------------------------------------------------------------------

  /** `HH:MM-HH:MM` */
  predicate IsPeriod(s: string) {
    |s| == 11 && IsHHMM(s[..5]) && s[5] == '-' && IsHHMM(s[6..])
  }

  /** The four shapes a day's token can take: closed, one period (which
      includes the full day `00:00-24:00`), or two periods. */
  predicate IsScheduleToken(s: string) {
    s == "" || IsPeriod(s) || (|s| == 23 && IsPeriod(s[..11]) && s[11] == ',' && IsPeriod(s[12..]))
  }

  const FullDay := "00:00-24:00"

  /** The full-day test of `convertDayOpeningHours`, on normalised values. */
  predicate IsFullDay(s1: string, e1: string, s2: string, e2: string) {
    (FormatTime(s1) == "00:00" && FormatTime(e1) == "24:00")
    || (FormatTime(s1) == "00:00" && FormatTime(e2) == "24:00")
    || (FormatTime(s2) == "00:00" && FormatTime(e2) == "24:00")
  }

  function PeriodText(start: string, end: string): string {
    FormatTime(start) + "-" + FormatTime(end)
  }

  lemma PeriodTextShape(start: string, end: string)
    requires IsValidTime(start) && IsValidTime(end)
    ensures IsPeriod(PeriodText(start, end))
  {
    var a, b := FormatTime(start), FormatTime(end);
    var p := a + "-" + b;
    assert p[..5] == a;
    assert p[6..] == b;
  }

  lemma TwoPeriodsShape(p: string, q: string)
    requires IsPeriod(p) && IsPeriod(q)
    ensures IsScheduleToken(p + "," + q)
  {
    var r := p + "," + q;
    assert r[..11] == p;
    assert r[12..] == q;
  }

  /** `convertDayOpeningHours`: four raw times become one schedule token. */
  function ConvertDayOpeningHours(start1: string, end1: string, start2: string, end2: string): (r: string)
    ensures IsScheduleToken(r)
  {
    var period1Valid := IsValidTime(start1) && IsValidTime(end1);
    var period2Valid := IsValidTime(start2) && IsValidTime(end2);
    if IsFullDay(start1, end1, start2, end2) then
      assert IsPeriod(FullDay) by { assert FullDay[..5] == "00:00" && FullDay[6..] == "24:00"; }
      FullDay
    else if period1Valid && period2Valid then
      PeriodTextShape(start1, end1);
      PeriodTextShape(start2, end2);
      TwoPeriodsShape(PeriodText(start1, end1), PeriodText(start2, end2));
      PeriodText(start1, end1) + "," + PeriodText(start2, end2)
    else if period1Valid && !period2Valid then
      PeriodTextShape(start1, end1);
      PeriodText(start1, end1)
    else if !period1Valid && period2Valid then
      PeriodTextShape(start2, end2);
      PeriodText(start2, end2)
    else
      ""
  }

  /** An independent description of the non-full-day outcome: the valid
      periods, in order, each written `start-end` and joined with commas. */
  function ValidPeriods(start1: string, end1: string, start2: string, end2: string): seq<string> {
    (if IsValidTime(start1) && IsValidTime(end1) then [PeriodText(start1, end1)] else [])
    + (if IsValidTime(start2) && IsValidTime(end2) then [PeriodText(start2, end2)] else [])
  }

  /** Unless the full-day test fires, the token lists exactly the valid
      periods; the full-day test takes priority whatever the other values. */
  lemma ConvertDayListsValidPeriods(start1: string, end1: string, start2: string, end2: string)
    ensures IsFullDay(start1, end1, start2, end2) ==> ConvertDayOpeningHours(start1, end1, start2, end2) == FullDay
    ensures !IsFullDay(start1, end1, start2, end2) ==>
      ConvertDayOpeningHours(start1, end1, start2, end2) == Join(ValidPeriods(start1, end1, start2, end2), ",")
  {
  }

  /** A day is closed exactly when there is no full day and no valid period. */
  lemma ConvertDayClosedIff(start1: string, end1: string, start2: string, end2: string)
    ensures ConvertDayOpeningHours(start1, end1, start2, end2) == "" <==>
      !IsFullDay(start1, end1, start2, end2)
      && !(IsValidTime(start1) && IsValidTime(end1))
      && !(IsValidTime(start2) && IsValidTime(end2))
  {
  }

  /** The full-day branch is not reached from a literal `'00:00'` start,
      which is a "no time" sentinel: that day comes out closed. */
  lemma FullDayMissedFromSentinel()
    ensures ConvertDayOpeningHours("00:00", "24:00", "", "") == ""
  {
    FormatTimeKeepsHHMM("24:00");
  }

  /** The full-day branch is reached from `'0:00'` or `' 00:00'`. */
  lemma FullDayReachedFromPadding()
    ensures ConvertDayOpeningHours("0:00", "24:00", "", "") == FullDay
    ensures ConvertDayOpeningHours(" 00:00", "24:00", "", "") == FullDay
  {
    FormatTimePadsZeroHour();
    FormatTimeTrimsAfterSentinel();
    FormatTimeKeepsHHMM("24:00");
  }

  /** Once reached, the full day discards a valid second period. */
  lemma FullDayDiscardsSecondPeriod()
    ensures ConvertDayOpeningHours("0:00", "24:00", "14:00", "18:00") == FullDay
  {
    FormatTimePadsZeroHour();
    FormatTimeKeepsHHMM("24:00");
  }

  // ---------------------------------------------------------------------
  // Row mapping
  // ---------------------------------------------------------------------

  /** The values the user enters once per run. */
  datatype GlobalInputs = GlobalInputs(description: string, serviceType: string)

  datatype Weekday = Monday | Tuesday | Wednesday | Thursday | Friday | Saturday | Sunday

  /** The day as written in the courier export's column names. */
  function DayName(d: Weekday): string {
    match d
    case Monday => "Lundi"
    case Tuesday => "Mardi"
    case Wednesday => "Mercredi"
    case Thursday => "Jeudi"
    case Friday => "Vendredi"
    case Saturday => "Samedi"
    case Sunday => "Dimanche"
  }

  /** The listing column that receives the day's token. */
  function HoursKey(d: Weekday): string {
    match d
    case Monday => "Horaires le lundi"
    case Tuesday => "Horaires le mardi"
    case Wednesday => "Horaires le mercredi"
    case Thursday => "Horaires le jeudi"
    case Friday => "Horaires le vendredi"
    case Saturday => "Horaires le samedi"
    case Sunday => "Horaires le dimanche"
  }

  datatype Period = First | Second
  datatype Bound = Start | End

  /** `'Heure Début 1ère Période Lundi'` and its 27 siblings. */
  function TimeKey(b: Bound, p: Period, d: Weekday): string {
    "Heure " + (if b == Start then "Début" else "Fin") + " "
    + (if p == First then "1ère" else "2ème") + " Période " + DayName(d)
  }

  /** `location[key] || ''` as handed to `formatTime`; a truthy number makes
      `time.trim()` throw, which is `None` here. */
  function TimeText(c: Cell): (r: Option<string>)
    ensures r == None <==> c.Num? && c.n != 0
  {
    match OrBlank(c)
    case Str(s) => Some(s)
    case _ => None
  }

  /** A row whose time cell for day `d` would make `formatTime` throw. */
  predicate HasNumericTime(loc: Record, d: Weekday) {
    exists b: Bound, p: Period :: TimeText(Get(loc, TimeKey(b, p, d))) == None
  }

  /** The token for one day of one row, or `None` when `formatTime` throws. */
  function DayHours(loc: Record, d: Weekday): (r: Option<string>)
    ensures r == None <==> HasNumericTime(loc, d)
  {
    var s1 := TimeText(Get(loc, TimeKey(Start, First, d)));
    var e1 := TimeText(Get(loc, TimeKey(End, First, d)));
    var s2 := TimeText(Get(loc, TimeKey(Start, Second, d)));
    var e2 := TimeText(Get(loc, TimeKey(End, Second, d)));
    if s1.Some? && e1.Some? && s2.Some? && e2.Some? then
      Some(ConvertDayOpeningHours(s1.value, e1.value, s2.value, e2.value))
    else
      None
  }

  /** `parseFloat(x) || 0`, given the float parser (`None` stands for NaN). */
  function ParseOrZero(parse: Cell -> Option<int>, c: Cell): (r: int)
    ensures parse(c) == None ==> r == 0
    ensures parse(c).Some? ==> r == parse(c).value
  {
    match parse(c)
    case Some(v) => v
    case None => 0
  }

  const CodeKey := "Code de magasin"
  const NameKey := "Nom de l'entreprise"
  const Address1Key := "Ligne d'adresse\U{00A0}1"
  const LocalityKey := "Localité"
  const CountryKey := "Pays/Région"
  const PostalCodeKey := "Code postal"
  const LatitudeKey := "Latitude"
  const LongitudeKey := "Longitude"
  const CategoryKey := "Catégorie principale"
  const DescriptionKey := "Fournie par l'établissement"

  /** The 41 keys of the object literal the mapper returns. */
  const ListingKeys: set<string> := {
    CodeKey, NameKey, Address1Key,
    "Ligne d'adresse\U{00A0}2", "Ligne d'adresse\U{00A0}3", "Ligne d'adresse\U{00A0}4",
    "Ligne d'adresse\U{00A0}5", "Sous-localité", LocalityKey, "Région administrative",
    CountryKey, PostalCodeKey, LatitudeKey, LongitudeKey, "Numéro principal",
    "Autres numéros de téléphone", "Site Web", CategoryKey, "Catégories supplémentaires",
    "Horaires le dimanche", "Horaires le lundi", "Horaires le mardi", "Horaires le mercredi",
    "Horaires le jeudi", "Horaires le vendredi", "Horaires le samedi",
    "Horaires d'ouverture exceptionnels", DescriptionKey, "Date de création", "Photo du logo",
    "Photo de couverture", "Autres photos", "Libellés",
    "Numéro de téléphone pour les extensions de lieu AdWords",
    "Fournis par l'établissement: S'identifie comme géré par une femme (is_owned_by_women)",
    "Paiements: Cartes de crédit (pay_credit_card_types_accepted): American Express (american_express)",
    "Paiements: Cartes de crédit (pay_credit_card_types_accepted): MasterCard (mastercard)",
    "Paiements: Cartes de crédit (pay_credit_card_types_accepted): VISA (visa)",
    "Services: Wi-Fi (wi_fi)",
    "URL des pages Google\U{00A0}Adresses: Lien du menu ou des services (url_menu)",
    "URL des pages Google\U{00A0}Adresses: Liens pour commander à l'avance (url_order_ahead)"
  }

  /** The keys whose value comes from the row or the global inputs. */
  const SourcedKeys: set<string> := {
    CodeKey, NameKey, Address1Key, LocalityKey, CountryKey, PostalCodeKey,
    LatitudeKey, LongitudeKey, CategoryKey, DescriptionKey
  }

  /** The weekday keys. */
  const HoursKeys: set<string> := {
    "Horaires le dimanche", "Horaires le lundi", "Horaires le mardi", "Horaires le mercredi",
    "Horaires le jeudi", "Horaires le vendredi", "Horaires le samedi"
  }

  /** The days in the order the source computes their tokens. */
  const WeekOrder: seq<Weekday> := [Monday, Tuesday, Wednesday, Thursday, Friday, Saturday, Sunday]

  /** The position of a day in `WeekOrder`. */
  function DayIndex(d: Weekday): (i: nat)
    ensures i < 7 && WeekOrder[i] == d
  {
    match d
    case Monday => 0
    case Tuesday => 1
    case Wednesday => 2
    case Thursday => 3
    case Friday => 4
    case Saturday => 5
    case Sunday => 6
  }

  /** The tokens of the given days, in order, or `None` when one of them throws. */
  function WeekHours(loc: Record, days: seq<Weekday>): (r: Option<seq<string>>)
    ensures r.Some? <==> forall i :: 0 <= i < |days| ==> !HasNumericTime(loc, days[i])
    ensures r.Some? ==> |r.value| == |days|
    ensures r.Some? ==> forall i :: 0 <= i < |days| ==> DayHours(loc, days[i]) == Some(r.value[i])
  {
    if days == [] then Some([])
    else
      match DayHours(loc, days[0])
      case None => None
      case Some(first) =>
        match WeekHours(loc, days[1..])
        case None => None
        case Some(rest) => Some([first] + rest)
  }

  /** The value the object literal gives `key`, `hours` listing the seven
      tokens in `WeekOrder`; every key it does not source is `''`. */
  function ListingField(loc: Record, hours: seq<string>, g: GlobalInputs, parse: Cell -> Option<int>, key: string): (r: Cell)
    requires |hours| == 7
    ensures r != Undef
  {
    if key == CodeKey then OrBlank(Get(loc, "Numéro Relais"))
    else if key == NameKey then OrBlank(Get(loc, "Enseigne"))
    else if key == Address1Key then OrBlank(Get(loc, "Adresse1"))
    else if key == LocalityKey then OrBlank(Get(loc, "Ville"))
    else if key == CountryKey then Str("France")
    else if key == PostalCodeKey then OrBlank(Get(loc, "Code Postal"))
    else if key == LatitudeKey then Num(ParseOrZero(parse, Get(loc, "Latitude")))
    else if key == LongitudeKey then Num(ParseOrZero(parse, Get(loc, "Longitude")))
    else if key == CategoryKey then Str(g.serviceType)
    else if key == HoursKey(Sunday) then Str(hours[6])
    else if key == HoursKey(Monday) then Str(hours[0])
    else if key == HoursKey(Tuesday) then Str(hours[1])
    else if key == HoursKey(Wednesday) then Str(hours[2])
    else if key == HoursKey(Thursday) then Str(hours[3])
    else if key == HoursKey(Friday) then Str(hours[4])
    else if key == HoursKey(Saturday) then Str(hours[5])
    else if key == DescriptionKey then Str(g.description)
    else Str("")
  }

  /** The listing row built from a courier row and its seven tokens. */
  function ListingRow(loc: Record, hours: seq<string>, g: GlobalInputs, parse: Cell -> Option<int>): (r: Record)
    requires |hours| == 7
    ensures forall k :: k in r ==> r[k] != Undef
  {
    map key | key in ListingKeys :: ListingField(loc, hours, g, parse, key)
  }

  /** The callback of `convertToGMBFormat` for one row. */
  function ConvertLocation(loc: Record, g: GlobalInputs, parse: Cell -> Option<int>): (r: Option<Record>)
    ensures r.Some? <==> WeekHours(loc, WeekOrder).Some?
    ensures r.Some? ==> r.value.Keys == ListingKeys && forall k :: k in r.value ==> r.value[k] != Undef
  {
    match WeekHours(loc, WeekOrder)
    case None => None
    case Some(hours) =>
      ListingRowKeys(loc, hours, g, parse);
      Some(ListingRow(loc, hours, g, parse))
  }

  const TrimError := "TypeError: time.trim is not a function"

  /** `convertToGMBFormat`: one listing row per courier row, or the
      exception a numeric time cell raises. */
  function ConvertToGmbFormat(rows: seq<Record>, g: GlobalInputs, parse: Cell -> Option<int>): (r: Result<seq<Record>>)
    ensures r.Success? ==> |r.value| == |rows|
    ensures r.Success? ==> forall i :: 0 <= i < |rows| ==> ConvertLocation(rows[i], g, parse) == Some(r.value[i])
    ensures r.Success? <==> forall i :: 0 <= i < |rows| ==> ConvertLocation(rows[i], g, parse).Some?
    ensures r.Failure? ==> r.error == TrimError
  {
    if forall i | 0 <= i < |rows| :: ConvertLocation(rows[i], g, parse).Some? then
      Success(seq(|rows|, i requires 0 <= i < |rows| => ConvertLocation(rows[i], g, parse).value))
    else
      Failure(TrimError)
  }

  /** A row converts unless one of its 28 time cells is a non-zero number. */
  lemma ConvertLocationThrowsIff(loc: Record, g: GlobalInputs, parse: Cell -> Option<int>)
    ensures ConvertLocation(loc, g, parse).None? <==> exists d: Weekday :: HasNumericTime(loc, d)
  {
    if d: Weekday :| HasNumericTime(loc, d) {
      assert WeekOrder[DayIndex(d)] == d;
    }
  }

  /** Every row has exactly the 41 keys of the fixed schema. */
  lemma ListingRowKeys(loc: Record, hours: seq<string>, g: GlobalInputs, parse: Cell -> Option<int>)
    requires |hours| == 7
    ensures ListingRow(loc, hours, g, parse).Keys == ListingKeys
  {
  }

  /** A key outside the weekday keys is none of the seven weekday columns. */
  lemma NotAnHoursKey(k: string)
    requires k !in HoursKeys
    ensures forall d: Weekday :: k != HoursKey(d)
  {
    forall d: Weekday ensures k != HoursKey(d) {
      assert HoursKey(d) in HoursKeys by {
        match d
        case Monday =>
        case Tuesday =>
        case Wednesday =>
        case Thursday =>
        case Friday =>
        case Saturday =>
        case Sunday =>
      }
    }
  }

  /** A key outside the sourced keys is none of the ten sourced columns. */
  lemma NotASourcedKey(k: string)
    requires k !in SourcedKeys
    ensures k != CodeKey && k != NameKey && k != Address1Key && k != LocalityKey && k != CountryKey
    ensures k != PostalCodeKey && k != LatitudeKey && k != LongitudeKey && k != CategoryKey && k != DescriptionKey
  {
  }

  /** Each key that is neither copied, derived nor a weekday is `''`. */
  lemma ListingRowBlanks(loc: Record, hours: seq<string>, g: GlobalInputs, parse: Cell -> Option<int>, k: string)
    requires |hours| == 7
    requires k in ListingKeys && k !in SourcedKeys && k !in HoursKeys
    ensures ListingRow(loc, hours, g, parse)[k] == Str("")
  {
    NotAnHoursKey(k);
    NotASourcedKey(k);
    assert ListingRow(loc, hours, g, parse)[k] == ListingField(loc, hours, g, parse, k);
  }

  /** The weekday column of day `d` holds the day's token. */
  lemma HoursField(loc: Record, hours: seq<string>, g: GlobalInputs, parse: Cell -> Option<int>, d: Weekday)
    requires |hours| == 7
    ensures ListingField(loc, hours, g, parse, HoursKey(d)) == Str(hours[DayIndex(d)])
  {
    NotASourcedKey(HoursKey(d));
    match d
    case Monday =>
    case Tuesday =>
    case Wednesday =>
    case Thursday =>
    case Friday =>
    case Saturday =>
    case Sunday =>
  }

  /** The weekday columns hold the tokens, Monday first. */
  lemma ListingRowHours(loc: Record, hours: seq<string>, g: GlobalInputs, parse: Cell -> Option<int>, d: Weekday)
    requires |hours| == 7
    ensures HoursKey(d) in ListingRow(loc, hours, g, parse)
    ensures ListingRow(loc, hours, g, parse)[HoursKey(d)] == Str(hours[DayIndex(d)])
  {
    assert HoursKey(d) in ListingKeys by {
      match d
      case Monday =>
      case Tuesday =>
      case Wednesday =>
      case Thursday =>
      case Friday =>
      case Saturday =>
      case Sunday =>
    }
    HoursField(loc, hours, g, parse, d);
  }

  /** The identity and address columns are copied, a falsy source value becoming `''`. */
  lemma ListingRowCopied(loc: Record, hours: seq<string>, g: GlobalInputs, parse: Cell -> Option<int>)
    requires |hours| == 7
    ensures ListingRow(loc, hours, g, parse)[CodeKey] == OrBlank(Get(loc, "Numéro Relais"))
    ensures ListingRow(loc, hours, g, parse)[NameKey] == OrBlank(Get(loc, "Enseigne"))
    ensures ListingRow(loc, hours, g, parse)[Address1Key] == OrBlank(Get(loc, "Adresse1"))
    ensures ListingRow(loc, hours, g, parse)[LocalityKey] == OrBlank(Get(loc, "Ville"))
    ensures ListingRow(loc, hours, g, parse)[PostalCodeKey] == OrBlank(Get(loc, "Code Postal"))
  {
  }

  /** The country is `'France'`, and the category and description are the
      global inputs. */
  lemma ListingRowDerived(loc: Record, hours: seq<string>, g: GlobalInputs, parse: Cell -> Option<int>)
    requires |hours| == 7
    ensures ListingRow(loc, hours, g, parse)[CountryKey] == Str("France")
    ensures ListingRow(loc, hours, g, parse)[CategoryKey] == Str(g.serviceType)
    ensures ListingRow(loc, hours, g, parse)[DescriptionKey] == Str(g.description)
  {
  }

  /** The coordinates are parsed, `0` when they are not a number. */
  lemma ListingRowCoordinates(loc: Record, hours: seq<string>, g: GlobalInputs, parse: Cell -> Option<int>)
    requires |hours| == 7
    ensures ListingRow(loc, hours, g, parse)[LatitudeKey] == Num(ParseOrZero(parse, Get(loc, "Latitude")))
    ensures ListingRow(loc, hours, g, parse)[LongitudeKey] == Num(ParseOrZero(parse, Get(loc, "Longitude")))
  {
  }

  /** For a converted row, each weekday column holds
      `convertDayOpeningHours` of that day's four time cells, read with
      `|| ''`. */
  lemma ConvertLocationHours(loc: Record, g: GlobalInputs, parse: Cell -> Option<int>, d: Weekday)
    requires ConvertLocation(loc, g, parse).Some?
    ensures HoursKey(d) in ConvertLocation(loc, g, parse).value
    ensures DayHours(loc, d).Some?
      && ConvertLocation(loc, g, parse).value[HoursKey(d)] == Str(DayHours(loc, d).value)
  {
    var hours := WeekHours(loc, WeekOrder).value;
    assert DayHours(loc, WeekOrder[DayIndex(d)]) == Some(hours[DayIndex(d)]);
    ListingRowHours(loc, hours, g, parse, d);
  }
}
