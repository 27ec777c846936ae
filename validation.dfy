/** Checks on what a user types: e-mail and codice fiscale formats, the required profile
    fields, free-form start times, and clashes with the user's other bookings that day. */
module Validation {
  import opened Wrappers
  import opened Text
  import opened Clock
  import Records

  // ---------------------------------------------------------------- e-mail

  /** `[a-zA-Z0-9_.+-]`, the characters of the part before '@'. */
  predicate LocalChar(c: char) { IsLetter(c) || IsDigit(c) || c == '_' || c == '.' || c == '+' || c == '-' }

  /** `[a-zA-Z0-9-]`, the characters of the domain label before the first '.'. */
  predicate LabelChar(c: char) { IsLetter(c) || IsDigit(c) || c == '-' }

  /** `[a-zA-Z0-9-.]`, the characters after that '.'. */
  predicate TailChar(c: char) { LabelChar(c) || c == '.' }

  predicate AllLocal(s: string) { forall i :: 0 <= i < |s| ==> LocalChar(s[i]) }
  predicate AllLabel(s: string) { forall i :: 0 <= i < |s| ==> LabelChar(s[i]) }
  predicate AllTail(s: string) { forall i :: 0 <= i < |s| ==> TailChar(s[i]) }

  /** The language of `^[a-zA-Z0-9_.+-]+@[a-zA-Z0-9-]+\.[a-zA-Z0-9-.]+$`: some split of
      `s` into a non-empty local part, '@', a non-empty label, '.', and a non-empty tail. */
  ghost predicate EmailShape(s: string)
  {
    exists i, j :: 0 < i && i + 1 < j && j + 1 < |s| && s[i] == '@' && s[j] == '.'
                   && AllLocal(s[..i]) && AllLabel(s[i + 1..j]) && AllTail(s[j + 1..])
  }

  /** `validate_email`: the local part ends at the only '@' and the label at the first '.'
      after it, since neither may contain that character. */
  function ValidateEmail(s: string): bool
  {
    var i := IndexOf(s, '@');
    if i == 0 || i == |s| || !AllLocal(s[..i]) then false
    else
      var rest := s[i + 1..];
      var j := IndexOf(rest, '.');
      0 < j && j + 1 < |rest| && AllLabel(rest[..j]) && AllTail(rest[j + 1..])
  }

  /** What the scan accepts matches the pattern. */
  lemma ValidateEmailSound(s: string)
    requires ValidateEmail(s)
    ensures EmailShape(s)
  {
    var i := IndexOf(s, '@');
    var rest := s[i + 1..];
    var j := IndexOf(rest, '.');
    assert s[i + 1..i + 1 + j] == rest[..j];
    assert s[i + 1 + j + 1..] == rest[j + 1..];
    assert s[i + 1 + j] == rest[j];
    assert 0 < i && i + 1 < i + 1 + j && i + 1 + j + 1 < |s| && s[i] == '@' && s[i + 1 + j] == '.'
           && AllLocal(s[..i]) && AllLabel(s[i + 1..i + 1 + j]) && AllTail(s[i + 1 + j + 1..]);
  }

  /** Whatever the pattern matches, the scan accepts: the '@' it finds first is the one that
      ends the local part, and the '.' it finds first is the one that ends the label. */
  lemma ValidateEmailComplete(s: string, i: int, j: int)
    requires 0 < i && i + 1 < j && j + 1 < |s| && s[i] == '@' && s[j] == '.'
    requires AllLocal(s[..i]) && AllLabel(s[i + 1..j]) && AllTail(s[j + 1..])
    ensures ValidateEmail(s)
  {
    forall p | 0 <= p < i
      ensures s[p] != '@'
    {
      assert LocalChar(s[..i][p]);
    }
    IndexOfAt(s, '@', i);
    var rest := s[i + 1..];
    var l := j - i - 1;
    forall p | 0 <= p < l
      ensures rest[p] != '.'
    {
      assert LabelChar(s[i + 1..j][p]);
    }
    IndexOfAt(rest, '.', l);
    assert rest[..l] == s[i + 1..j];
    assert rest[l + 1..] == s[j + 1..];
  }

  /** The first occurrence is where `c` stands with no `c` before it. */
  lemma {:induction false} IndexOfAt(s: string, c: char, k: nat)
    requires k < |s| && s[k] == c
    requires forall p :: 0 <= p < k ==> s[p] != c
    ensures IndexOf(s, c) == k
  {
    if k > 0 {
      IndexOfAt(s[1..], c, k - 1);
    }
  }

  /** The scan by first occurrences accepts exactly the strings the pattern matches. */
  lemma ValidateEmailIff(s: string)
    ensures ValidateEmail(s) <==> EmailShape(s)
  {
    if ValidateEmail(s) {
      ValidateEmailSound(s);
    }
    if EmailShape(s) {
      var i, j :| 0 < i && i + 1 < j && j + 1 < |s| && s[i] == '@' && s[j] == '.'
                  && AllLocal(s[..i]) && AllLabel(s[i + 1..j]) && AllTail(s[j + 1..]);
      ValidateEmailComplete(s, i, j);
    }
  }

  // ------------------------------------------------------ codice fiscale

  /** `^[A-Za-z]{6}\d{2}[A-Za-z]\d{2}[A-Za-z]\d{3}[A-Za-z]$` written as the pattern's
      segments. */
  ghost predicate CodiceSegments(s: string)
  {
    |s| == 16 && AllLetters(s[..6]) && AllDigits(s[6..8]) && IsLetter(s[8]) && AllDigits(s[9..11])
    && IsLetter(s[11]) && AllDigits(s[12..15]) && IsLetter(s[15])
  }

  /** Which positions of a codice fiscale hold a letter ('L') and which a digit ('D'). */
  const CodiceLayout: string := "LLLLLLDDLDDLDDDL"

  predicate FitsLayout(layout: char, c: char)
  {
    if layout == 'L' then IsLetter(c) else IsDigit(c)
  }

  /** `validate_codice_fiscale`, position by position. */
  function ValidateCodiceFiscale(s: string): bool
  {
    |s| == 16 && forall i :: 0 <= i < 16 ==> FitsLayout(CodiceLayout[i], s[i])
  }

  /** The positional check accepts exactly the strings the pattern matches. */
  lemma ValidateCodiceFiscaleIff(s: string)
    ensures ValidateCodiceFiscale(s) <==> CodiceSegments(s)
  {
    if |s| == 16 {
      assert forall i :: 0 <= i < 6 ==> s[..6][i] == s[i];
      assert forall i :: 6 <= i < 8 ==> s[6..8][i - 6] == s[i];
      assert forall i :: 9 <= i < 11 ==> s[9..11][i - 9] == s[i];
      assert forall i :: 12 <= i < 15 ==> s[12..15][i - 12] == s[i];
    }
  }

  // ------------------------------------------------------------ user data

  /** The profile as a dictionary from field name to value. */
  type UserData = map<string, string>

  datatype UserDataError = MissingField(field: string) | InvalidCodice | InvalidEmail

  const RequiredFields: seq<string> := ["codice_fiscale", "cognome_nome", "email"]

  /** A field is present when its key is there and its value is not empty. */
  predicate Present(data: UserData, field: string)
  {
    field in data && data[field] != ""
  }

  /** The first of `fields` that is not present, if any. */
  function FirstMissing(fields: seq<string>, data: UserData): (r: Option<string>)
    ensures r.None? <==> forall i :: 0 <= i < |fields| ==> Present(data, fields[i])
    ensures r.Some? ==> exists i :: 0 <= i < |fields| && fields[i] == r.value && !Present(data, fields[i])
                                    && forall k :: 0 <= k < i ==> Present(data, fields[k])
  {
    if fields == [] then None
    else if !Present(data, fields[0]) then Some(fields[0])
    else
      FirstMissing(fields[1..], data)
  }

  /** What `validate_user_data` decides: the first missing field, then the codice fiscale
      format, then the e-mail format. */
  function CheckUserData(data: UserData): Outcome<UserDataError>
  {
    var missing := FirstMissing(RequiredFields, data);
    if missing.Some? then Fail(MissingField(missing.value))
    else if Get(data, "codice_fiscale") == "" || !ValidateCodiceFiscale(Get(data, "codice_fiscale")) then Fail(InvalidCodice)
    else if Get(data, "email") == "" || !ValidateEmail(Get(data, "email")) then Fail(InvalidEmail)
    else Pass
  }

  /** `data.get(field)`, with the empty string standing for None. */
  function Get(data: UserData, field: string): (v: string)
    ensures field in data ==> v == data[field]
    ensures field !in data ==> v == ""
  {
    if field in data then data[field] else ""
  }

  /** `validate_user_data`: the loop over the required fields, then the two format checks. */
  method ValidateUserData(data: UserData) returns (r: Outcome<UserDataError>)
    ensures r == CheckUserData(data)
  {
    var i := 0;
    while i < |RequiredFields|
      invariant 0 <= i <= |RequiredFields|
      invariant FirstMissing(RequiredFields, data) == FirstMissing(RequiredFields[i..], data)
    {
      var field := RequiredFields[i];
      if !(field in data) || data[field] == "" {
        return Fail(MissingField(field));
      }
      assert RequiredFields[i..][1..] == RequiredFields[i + 1..];
      i := i + 1;
    }
    var codice := Get(data, "codice_fiscale");
    if codice == "" || !ValidateCodiceFiscale(codice) {
      return Fail(InvalidCodice);
    }
    var email := Get(data, "email");
    if email == "" || !ValidateEmail(email) {
      return Fail(InvalidEmail);
    }
    return Pass;
  }

  /** Data passes exactly when every required field is filled in and both formats match. */
  lemma CheckUserDataPasses(data: UserData)
    ensures CheckUserData(data).Pass?
            <==> Present(data, "codice_fiscale") && Present(data, "cognome_nome") && Present(data, "email")
                 && CodiceSegments(data["codice_fiscale"]) && EmailShape(data["email"])
  {
    if "codice_fiscale" in data {
      ValidateCodiceFiscaleIff(data["codice_fiscale"]);
    }
    if "email" in data {
      ValidateEmailIff(data["email"]);
    }
    if Present(data, "codice_fiscale") && Present(data, "cognome_nome") && Present(data, "email") {
      assert forall i :: 0 <= i < |RequiredFields| ==> Present(data, RequiredFields[i]);
    } else {
      assert !Present(data, RequiredFields[0]) || !Present(data, RequiredFields[1]) || !Present(data, RequiredFields[2]);
    }
  }

  /** A missing field is reported before any format problem, and an empty codice fiscale is
      reported as missing even when the e-mail is also malformed. */
  lemma CheckUserDataOrder(data: UserData)
    ensures !Present(data, "codice_fiscale") ==> CheckUserData(data) == Fail(MissingField("codice_fiscale"))
    ensures Present(data, "codice_fiscale") && !Present(data, "cognome_nome") ==> CheckUserData(data) == Fail(MissingField("cognome_nome"))
    ensures Present(data, "codice_fiscale") && Present(data, "cognome_nome") && !Present(data, "email")
            ==> CheckUserData(data) == Fail(MissingField("email"))
    ensures Present(data, "codice_fiscale") && Present(data, "cognome_nome") && Present(data, "email")
            && !CodiceSegments(data["codice_fiscale"])
            ==> CheckUserData(data) == Fail(InvalidCodice)
    ensures Present(data, "codice_fiscale") && Present(data, "cognome_nome") && Present(data, "email")
            && CodiceSegments(data["codice_fiscale"]) && !EmailShape(data["email"])
            ==> CheckUserData(data) == Fail(InvalidEmail)
  {
    if "codice_fiscale" in data {
      ValidateCodiceFiscaleIff(data["codice_fiscale"]);
    }
    if "email" in data {
      ValidateEmailIff(data["email"]);
    }
    if Present(data, "codice_fiscale") && Present(data, "cognome_nome") && Present(data, "email") {
      assert forall i :: 0 <= i < |RequiredFields| ==> Present(data, RequiredFields[i]);
    }
    var rest := RequiredFields[1..];
    assert rest == ["cognome_nome", "email"];
    assert rest[1..] == ["email"];
    assert FirstMissing(RequiredFields, data)
        == if !Present(data, "codice_fiscale") then Some("codice_fiscale") else FirstMissing(rest, data);
    assert FirstMissing(rest, data)
        == if !Present(data, "cognome_nome") then Some("cognome_nome") else FirstMissing(rest[1..], data);
    assert FirstMissing(rest[1..], data)
        == if !Present(data, "email") then Some("email") else FirstMissing(rest[1..][1..], data);
  }

  // ------------------------------------------------------------ start times

  /** `normalize_slot_input`: a bare hour `\d{1,2}` becomes "HH:00"; `\d{1,2}:\d{1,4}`
      becomes "HH:MM"; anything else, or an hour past 23 or a minute past 59, is None. */
  function NormalizeSlotInput(raw: string): (r: Option<string>)
    ensures r.Some? ==> ParseClock(r.value).Some? && FormatClock(ParseClock(r.value).value) == r.value
  {
    NormalizeStripped(Strip(raw))
  }

  /** `normalize_slot_input` once the input is stripped. */
  function NormalizeStripped(s: string): (r: Option<string>)
    ensures r.Some? ==> ParseClock(r.value).Some? && FormatClock(ParseClock(r.value).value) == r.value
  {
    if 1 <= |s| <= 2 && AllDigits(s) then ClockText(DigitsValue(s), 0)
    else
      var k := IndexOf(s, ':');
      if 1 <= k <= 2 && k < |s| && 1 <= |s| - (k + 1) <= 4 && AllDigits(s[..k]) && AllDigits(s[k + 1..]) then
        ClockText(DigitsValue(s[..k]), DigitsValue(s[k + 1..]))
      else None
  }

  /** "HH:MM" for an hour below 24 and a minute below 60; None otherwise. */
  function ClockText(h: nat, m: nat): (r: Option<string>)
    ensures r.Some? ==> ParseClock(r.value).Some? && FormatClock(ParseClock(r.value).value) == r.value
  {
    if h < 24 && m < 60 then
      ParseFormatClock(h * 60 + m);
      Some(FormatClock(h * 60 + m))
    else None
  }

  /** A string with no surrounding whitespace is its own `strip()`. */
  lemma StripNoSpace(s: string)
    requires forall i :: 0 <= i < |s| ==> !IsSpace(s[i])
    ensures Strip(s) == s
  {
  }

  /** Normalising a normalised time changes nothing. */
  lemma {:induction false} NormalizeIdempotent(raw: string)
    requires NormalizeSlotInput(raw).Some?
    ensures NormalizeSlotInput(NormalizeSlotInput(raw).value) == NormalizeSlotInput(raw)
  {
    var r := NormalizeSlotInput(raw).value;
    var m := ParseClock(r).value;
    NormalizeFormatted(m);
  }

  /** "HH:MM" as `strftime` writes it is already normal. */
  lemma NormalizeFormatted(m: MinuteOfDay)
    ensures NormalizeSlotInput(FormatClock(m)) == Some(FormatClock(m))
  {
    var s := FormatClock(m);
    FormatClockLayout(m);
    StripNoSpace(s);
    NormalizeTwoGroups(s);
    ClockTextOfSplit(m);
  }

  /** Splitting a time of day into hours and minutes and writing it back gives its text. */
  lemma ClockTextOfSplit(m: MinuteOfDay)
    ensures ClockText(m / 60, m % 60) == Some(FormatClock(m))
  {
    var h, mm := m / 60, m % 60;
    SplitMinute(m, h, mm);
    assert FormatClock(h * 60 + mm) == FormatClock(m);
  }

  lemma SplitMinute(m: MinuteOfDay, h: int, mm: int)
    requires h == m / 60 && mm == m % 60
    ensures h < 24 && mm < 60 && h * 60 + mm == m
  {
  }

  /** A stripped "hh:mm" with two digits on each side goes through the second branch. */
  lemma NormalizeTwoGroups(s: string)
    requires |s| == 5 && IndexOf(s, ':') == 2
    requires AllDigits(s[..2]) && AllDigits(s[3..])
    ensures NormalizeStripped(s) == ClockText(DigitsValue(s[..2]), DigitsValue(s[3..]))
  {
    assert s[2 + 1..] == s[3..];
  }

  /** "HH:MM" as `strftime` writes it: two digits, the colon as its first ':', two digits,
      and no whitespace. */
  lemma FormatClockLayout(m: MinuteOfDay)
    ensures forall i :: 0 <= i < |FormatClock(m)| ==> !IsSpace(FormatClock(m)[i])
    ensures IndexOf(FormatClock(m), ':') == 2
    ensures DigitsValue(FormatClock(m)[..2]) == m / 60 && DigitsValue(FormatClock(m)[3..]) == m % 60
  {
    var s := FormatClock(m);
    assert s[..2] == Pad2(m / 60);
    assert s[3..] == Pad2(m % 60);
    assert forall i :: 0 <= i < 2 ==> s[..2][i] == s[i];
    assert forall i :: 3 <= i < 5 ==> s[3..][i - 3] == s[i];
  }

  /** An input that strips to one or two digits (leading zeros and surrounding whitespace
      allowed) is the bare hour h they read: "hh:00" when h is below 24, refused from 24 on. */
  lemma NormalizeBareHour(raw: string)
    requires var s := Strip(raw); 1 <= |s| <= 2 && AllDigits(s)
    ensures var h := DigitsValue(Strip(raw));
            NormalizeSlotInput(raw) == if h < 24 then Some(FormatClock(h * 60)) else None
  {
  }

  /** `re.fullmatch(r"\d{1,2}:\d{1,4}", s)` with the colon at index `k`. */
  predicate HourMinuteAt(s: string, k: nat)
  {
    1 <= k <= 2 && k + 1 < |s| && |s| - (k + 1) <= 4 && s[k] == ':'
    && AllDigits(s[..k]) && AllDigits(s[k + 1..])
  }

  /** An "h:m" input, once stripped, becomes "HH:MM" of its two numbers when the hour is
      below 24 and the minute below 60, and None otherwise. */
  lemma NormalizeHourMinute(raw: string, k: nat)
    requires HourMinuteAt(Strip(raw), k)
    ensures var s := Strip(raw);
            var h, m := DigitsValue(s[..k]), DigitsValue(s[k + 1..]);
            NormalizeSlotInput(raw) == if h < 24 && m < 60 then Some(FormatClock(h * 60 + m)) else None
  {
    var s := Strip(raw);
    StrippedHourMinute(s, k);
    ClockTextValue(DigitsValue(s[..k]), DigitsValue(s[k + 1..]));
  }

  lemma StrippedHourMinute(s: string, k: nat)
    requires HourMinuteAt(s, k)
    ensures NormalizeStripped(s) == ClockText(DigitsValue(s[..k]), DigitsValue(s[k + 1..]))
  {
    forall p | 0 <= p < k
      ensures s[p] != ':'
    {
      assert IsDigit(s[..k][p]);
    }
    IndexOfAt(s, ':', k);
  }

  lemma ClockTextValue(h: nat, m: nat)
    ensures ClockText(h, m) == if h < 24 && m < 60 then Some(FormatClock(h * 60 + m)) else None
  {
  }

  /** Input that is neither a bare hour nor "h:m" once stripped, including input with a
      second ':', is refused. */
  lemma NormalizeOtherwiseNone(raw: string)
    requires var s := Strip(raw); !(1 <= |s| <= 2 && AllDigits(s)) && forall k :: !HourMinuteAt(s, k)
    ensures NormalizeSlotInput(raw) == None
  {
    var s := Strip(raw);
    var k := IndexOf(s, ':');
    assert !HourMinuteAt(s, k);
  }

  // ------------------------------------------------------------ clashes

  /** A booking of the same user on the same day, with its times of day in minutes. */
  datatype HistoryRow = HistoryRow(start: int, end: int, status: Records.Status)

  /** Some row that still holds a seat overlaps the interval [start, end). */
  ghost predicate DurationConflict(history: seq<HistoryRow>, start: int, end: int)
  {
    exists i :: 0 <= i < |history| && !history[i].status.Inactive()
                && start < history[i].end && end > history[i].start
  }

  /** Some row that still holds a seat starts within 30 minutes after `start`, or is under way at `start`. */
  ghost predicate StartConflict(history: seq<HistoryRow>, start: int)
  {
    exists i :: 0 <= i < |history| && !history[i].status.Inactive()
                && history[i].start - 30 <= start < history[i].end
  }

  /** `duration_overlap`: whether a booking of `hours` from `start` clashes with `history`. */
  method DurationOverlap(history: seq<HistoryRow>, start: MinuteOfDay, hours: int) returns (overlap: bool)
    ensures overlap == DurationConflict(history, start, start + hours * 60)
  {
    if |history| == 0 {
      return false;
    }
    var end := start + hours * 60;
    var i := 0;
    while i < |history|
      invariant 0 <= i <= |history|
      invariant forall k :: 0 <= k < i ==> !(!history[k].status.Inactive() && start < history[k].end && end > history[k].start)
    {
      var row := history[i];
      if row.status.Inactive() {
        i := i + 1;
        continue;
      }
      if start < row.end && end > row.start {
        return true;
      }
      i := i + 1;
    }
    return false;
  }

  /** `time_not_overlap`: true when `start` is clear of every active booking. */
  method TimeNotOverlap(history: seq<HistoryRow>, start: MinuteOfDay) returns (free: bool)
    ensures free == !StartConflict(history, start)
  {
    var i := 0;
    while i < |history|
      invariant 0 <= i <= |history|
      invariant forall k :: 0 <= k < i ==> !(!history[k].status.Inactive() && history[k].start - 30 <= start < history[k].end)
    {
      var row := history[i];
      if row.status.Inactive() {
        i := i + 1;
        continue;
      }
      if row.start - 30 <= start < row.end {
        return false;
      }
      i := i + 1;
    }
    return true;
  }

  /** Terminated and canceled bookings never cause a clash in either check. */
  lemma {:induction false} InactiveRowsIgnored(history: seq<HistoryRow>, extra: seq<HistoryRow>, start: int, end: int)
    requires forall k :: 0 <= k < |extra| ==> extra[k].status.Inactive()
    ensures DurationConflict(history + extra, start, end) == DurationConflict(history, start, end)
    ensures StartConflict(history + extra, start) == StartConflict(history, start)
  {
    var all := history + extra;
    if DurationConflict(all, start, end) {
      var i :| 0 <= i < |all| && !all[i].status.Inactive() && start < all[i].end && end > all[i].start;
      assert history[i] == all[i];
    }
    if DurationConflict(history, start, end) {
      var i :| 0 <= i < |history| && !history[i].status.Inactive() && start < history[i].end && end > history[i].start;
      assert all[i] == history[i];
    }
    if StartConflict(all, start) {
      var i :| 0 <= i < |all| && !all[i].status.Inactive() && all[i].start - 30 <= start < all[i].end;
      assert history[i] == all[i];
    }
    if StartConflict(history, start) {
      var i :| 0 <= i < |history| && !history[i].status.Inactive() && history[i].start - 30 <= start < history[i].end;
      assert all[i] == history[i];
    }
  }

  /** A start the time check refuses is refused by the duration check too, for every duration
      of at least one hour. */
  lemma StartConflictImpliesDurationConflict(history: seq<HistoryRow>, start: int, hours: int)
    requires hours >= 1
    requires StartConflict(history, start)
    ensures DurationConflict(history, start, start + hours * 60)
  {
    var i :| 0 <= i < |history| && !history[i].status.Inactive() && history[i].start - 30 <= start < history[i].end;
    assert start < history[i].end && start + hours * 60 > history[i].start;
  }
}
