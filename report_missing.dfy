/**
  The missing-item report screen: its `dd/mm/yyyy` date formatter and parser,
  the outcome of `handleSubmit` given how its awaits turn out, and the form
  state the screen updates.
 */
module ReportMissing {
  import opened Wrappers
  import opened Strings
  import opened ReportForm
  import UploadImage

  // ---- dates ----

  /** What a JavaScript `Date` from the picker reports: `getFullYear()`, `getMonth()`, `getDate()`. */
  datatype CalendarDate = CalendarDate(year: int, month0: int, day: int)

  predicate ValidDate(d: CalendarDate)
  {
    0 <= d.month0 < 12 && 1 <= d.day <= 31
  }

  /** The arguments `parseDDMMYYYY` passes to `new Date(year, month, day)`; `month` is 0-based. */
  datatype DateArgs = DateArgs(year: int, month: int, day: int)

  /** `formatDate`: day and 1-based month padded to two digits, then the year. */
  function FormatDate(d: CalendarDate): (s: string)
    requires ValidDate(d)
    ensures |s| >= 7 && s[2] == '/' && s[5] == '/'
    ensures IsDigits(s[..2]) && IsDigits(s[3..5]) && '/' !in s[6..]
  {
    NoSeparatorInNumber(d.year, '/');
    Pad2(d.day) + "/" + Pad2(d.month0 + 1) + "/" + IntToString(d.year)
  }

  /** `const [dd, mm, yyyy] = input.split('/')`: a missing part reads as "". */
  function PartAt(parts: seq<string>, i: nat): string
  {
    if i < |parts| then parts[i] else ""
  }

  /**
    `parseDDMMYYYY`: null unless the first three '/'-separated parts are all
    non-empty and numeric; otherwise the arguments of `new Date`, with the
    month decremented.
   */
  function ParseDDMMYYYY(input: string): (r: Option<DateArgs>)
    ensures r.Some? ==> '/' in input
  {
    var parts := Split(input, '/');
    assert '/' !in input ==> parts == [input] by {
      if '/' !in input { SplitWithoutSeparator(input, '/'); }
    }
    ParseParts(PartAt(parts, 0), PartAt(parts, 1), PartAt(parts, 2))
  }

  /** The body of `parseDDMMYYYY` once the input is split. */
  function ParseParts(dd: string, mm: string, yyyy: string): Option<DateArgs>
  {
    if dd == "" || mm == "" || yyyy == "" then None
    else match (NumberValue(dd), NumberValue(mm), NumberValue(yyyy))
      case (Some(day), Some(month), Some(year)) => Some(DateArgs(year, month - 1, day))
      case _ => None
  }

  /**
    A parse succeeds exactly from three non-empty numeric parts, and then
    gives the year, the second part minus one, and the day.
   */
  lemma ParseSpec(input: string)
    ensures var parts := Split(input, '/');
            ParseDDMMYYYY(input).Some? ==>
              && |parts| >= 3 && parts[0] != "" && parts[1] != "" && parts[2] != ""
              && NumberValue(parts[0]) == Some(ParseDDMMYYYY(input).value.day)
              && NumberValue(parts[1]) == Some(ParseDDMMYYYY(input).value.month + 1)
              && NumberValue(parts[2]) == Some(ParseDDMMYYYY(input).value.year)
    ensures var parts := Split(input, '/');
            |parts| >= 3 && parts[0] != "" && parts[1] != "" && parts[2] != ""
            && NumberValue(parts[0]).Some? && NumberValue(parts[1]).Some? && NumberValue(parts[2]).Some? ==>
              ParseDDMMYYYY(input) == Some(DateArgs(NumberValue(parts[2]).value,
                                                    NumberValue(parts[1]).value - 1,
                                                    NumberValue(parts[0]).value))
  {
  }

  /** A part that is not a number makes the whole parse fail. */
  lemma ParseRejectsNonNumeric(input: string, i: nat)
    requires i < 3 && i < |Split(input, '/')|
    requires NumberValue(Split(input, '/')[i]).None?
    ensures ParseDDMMYYYY(input).None?
  {
  }

  /** Anything after the third part is ignored. */
  lemma ParseIgnoresExtraParts(dd: string, mm: string, yyyy: string, rest: string)
    requires '/' !in dd && '/' !in mm && '/' !in yyyy
    ensures ParseDDMMYYYY(dd + "/" + mm + "/" + yyyy + "/" + rest)
            == ParseDDMMYYYY(dd + "/" + mm + "/" + yyyy)
  {
    var sep := '/';
    var long, short := dd + "/" + mm + "/" + yyyy + "/" + rest, dd + "/" + mm + "/" + yyyy;
    assert long == dd + [sep] + (mm + [sep] + (yyyy + [sep] + rest));
    SplitAtFirst(dd, sep, mm + [sep] + (yyyy + [sep] + rest));
    SplitAtFirst(mm, sep, yyyy + [sep] + rest);
    SplitAtFirst(yyyy, sep, rest);
    var longParts := Split(long, '/');
    assert longParts[..3] == [dd, mm, yyyy];
    assert short == dd + [sep] + (mm + [sep] + yyyy);
    SplitAtFirst(dd, sep, mm + [sep] + yyyy);
    SplitAtFirst(mm, sep, yyyy);
    SplitWithoutSeparator(yyyy, sep);
    var shortParts := Split(short, '/');
    assert shortParts == [dd, mm, yyyy];
    assert ParseDDMMYYYY(long) == ParseParts(dd, mm, yyyy);
  }

  /** Splitting a formatted date gives its three parts. */
  lemma SplitFormatted(d: CalendarDate)
    requires ValidDate(d)
    ensures Split(FormatDate(d), '/') == [Pad2(d.day), Pad2(d.month0 + 1), IntToString(d.year)]
  {
    var sep := '/';
    var a, b, c := Pad2(d.day), Pad2(d.month0 + 1), IntToString(d.year);
    NoSeparatorInPad2(d.day, sep);
    NoSeparatorInPad2(d.month0 + 1, sep);
    NoSeparatorInNumber(d.year, sep);
    assert FormatDate(d) == a + [sep] + (b + [sep] + c);
    SplitAtFirst(a, sep, b + [sep] + c);
    SplitAtFirst(b, sep, c);
    SplitWithoutSeparator(c, sep);
  }

  /**
    Parsing what `formatDate` wrote gives back the picked date: day, 0-based
    month and year as `new Date` receives them. In particular the formatter's
    output always has three non-empty parts.
   */
  lemma ParseFormatRoundTrip(d: CalendarDate)
    requires ValidDate(d)
    ensures ParseDDMMYYYY(FormatDate(d)) == Some(DateArgs(d.year, d.month0, d.day))
  {
    SplitFormatted(d);
    var parts := Split(FormatDate(d), '/');
    assert PartAt(parts, 0) == Pad2(d.day) && PartAt(parts, 1) == Pad2(d.month0 + 1)
        && PartAt(parts, 2) == IntToString(d.year);
    NumberOfPad2(d.day);
    NumberOfPad2(d.month0 + 1);
    NumberOfIntToString(d.year);
    assert IntToString(d.year) != "";
  }

  // ---- submitting ----

  /** How `fetch('/api/items')` turned out: ok, a non-ok status, or a rejection. */
  datatype Response = Ok | NotOk | Threw

  /** The JSON body posted to `/api/items`; `lostAt` is the parsed date. */
  datatype Payload = Payload(
    kind: string, title: string, imageUrls: seq<string>, location: string,
    campus: string, lostAt: DateArgs, tags: seq<string>, description: string)

  /** Where `handleSubmit` ends. Only `Posted` issues the POST. */
  datatype SubmitResult =
    | MissingFields                          // alert, loading flag untouched
    | UploadFailed                           // an image upload threw: alert
    | InvalidDate                            // alert
    | TokenFailed                            // getToken() rejected: error alert
    | NoToken                                // silent return
    | Posted(payload: Payload, ok: bool)     // success alert, or the error alert on non-ok/throw

  /** How `await getToken()` turned out: a value (possibly null or empty), or a rejection. */
  datatype TokenResult = Resolved(token: Option<string>) | Rejected

  /** A snapshot of the form the handler reads. */
  datatype Form = Form(
    itemName: string, description: string, images: seq<string>, location: string,
    building: string, dateLost: string, selectedTags: seq<string>)

  /** `Promise.all(images.map(uploadImageToSupabase))`: every URL in order, or nothing if any upload threw. */
  function UploadAll(images: seq<string>, io: seq<UploadImage.UploadIo>, base: string): (r: Option<seq<string>>)
    requires |io| == |images|
    ensures r.Some? ==> |r.value| == |images|
  {
    if |images| == 0 then Some([])
    else match (UploadImage.Upload(images[0], io[0], base), UploadAll(images[1..], io[1..], base))
      case (Uploaded(url), Some(urls)) => Some([url] + urls)
      case _ => None
  }

  /** The uploads succeed exactly when each one does, and URL i is image i's public URL. */
  lemma {:induction false} UploadAllSpec(images: seq<string>, io: seq<UploadImage.UploadIo>, base: string)
    requires |io| == |images|
    ensures UploadAll(images, io, base).Some? <==>
              forall i :: 0 <= i < |images| ==> UploadImage.Upload(images[i], io[i], base).Uploaded?
    ensures UploadAll(images, io, base).Some? ==>
              forall i :: 0 <= i < |images| ==>
                UploadAll(images, io, base).value[i] == UploadImage.Upload(images[i], io[i], base).url
  {
    if |images| > 0 {
      UploadAllSpec(images[1..], io[1..], base);
      if UploadAll(images, io, base).None? && UploadImage.Upload(images[0], io[0], base).Uploaded? {
        assert UploadAll(images[1..], io[1..], base).None?;
        var i :| 0 <= i < |images[1..]| && !UploadImage.Upload(images[1..][i], io[1..][i], base).Uploaded?;
        assert !UploadImage.Upload(images[i + 1], io[i + 1], base).Uploaded?;
      }
    }
  }

  /**
    `handleSubmit`: validate, upload every image, parse the date, fetch a token,
    then post. `io` holds one outcome per image upload.
   */
  function SubmitOutcome(f: Form, io: seq<UploadImage.UploadIo>, supabaseUrl: string,
                  token: TokenResult, response: Response): (r: SubmitResult)
    requires |io| == |f.images|
    ensures r.Posted? ==>
              && RequiredFilled(f.itemName, f.description, f.location, f.dateLost)
              && token.Resolved? && r.payload.kind == "lost" && |r.payload.imageUrls| == |f.images|
  {
    if !RequiredFilled(f.itemName, f.description, f.location, f.dateLost) then MissingFields
    else match UploadAll(f.images, io, supabaseUrl)
      case None => UploadFailed
      case Some(urls) =>
        match ParseDDMMYYYY(f.dateLost)
        case None => InvalidDate
        case Some(lostAt) =>
          match token
          case Rejected => TokenFailed
          case Resolved(t) =>
            if t.None? || t.value == "" then NoToken
            else Posted(Payload("lost", f.itemName, urls, f.location, f.building, lostAt,
                              f.selectedTags, f.description),
                      response == Ok)
  }

  /** The POST is issued exactly when the fields are filled, the uploads succeed, the date parses and a token is present. */
  lemma SubmitPostsOnlyWhenValid(f: Form, io: seq<UploadImage.UploadIo>, supabaseUrl: string,
                                 token: TokenResult, response: Response)
    requires |io| == |f.images|
    ensures SubmitOutcome(f, io, supabaseUrl, token, response).Posted? <==>
              && f.itemName != "" && f.description != "" && f.location != "" && f.dateLost != ""
              && UploadAll(f.images, io, supabaseUrl).Some?
              && ParseDDMMYYYY(f.dateLost).Some?
              && token.Resolved? && token.token.Some? && token.token.value != ""
    ensures SubmitOutcome(f, io, supabaseUrl, token, response).TokenFailed? <==>
              && RequiredFilled(f.itemName, f.description, f.location, f.dateLost)
              && UploadAll(f.images, io, supabaseUrl).Some?
              && ParseDDMMYYYY(f.dateLost).Some?
              && token.Rejected?
    ensures SubmitOutcome(f, io, supabaseUrl, token, response).MissingFields? <==>
              !RequiredFilled(f.itemName, f.description, f.location, f.dateLost)
  {
  }

  /** The posted payload is a lost report built from the form: its text, tags, campus, parsed date and uploaded URLs. */
  lemma PayloadFromForm(f: Form, io: seq<UploadImage.UploadIo>, supabaseUrl: string,
                        token: TokenResult, response: Response)
    requires |io| == |f.images|
    requires SubmitOutcome(f, io, supabaseUrl, token, response).Posted?
    ensures var p := SubmitOutcome(f, io, supabaseUrl, token, response).payload;
            && p.kind == "lost" && p.title == f.itemName && p.description == f.description
            && p.location == f.location && p.campus == f.building && p.tags == f.selectedTags
            && Some(p.lostAt) == ParseDDMMYYYY(f.dateLost)
            && |p.imageUrls| == |f.images|
            && forall i :: 0 <= i < |f.images| ==>
                 UploadImage.Upload(f.images[i], io[i], supabaseUrl) == UploadImage.Uploaded(p.imageUrls[i])
    ensures SubmitOutcome(f, io, supabaseUrl, token, response).ok <==> response == Ok
  {
    UploadAllSpec(f.images, io, supabaseUrl);
  }

  /** A date written by `formatDate` never takes the invalid-date exit. */
  lemma FormattedDateNeverInvalid(f: Form, d: CalendarDate, io: seq<UploadImage.UploadIo>,
                                  supabaseUrl: string, token: TokenResult, response: Response)
    requires |io| == |f.images| && ValidDate(d) && f.dateLost == FormatDate(d)
    ensures !SubmitOutcome(f, io, supabaseUrl, token, response).InvalidDate?
  {
    FormattedDateParses(f.dateLost, d);
  }

  lemma FormattedDateParses(s: string, d: CalendarDate)
    requires ValidDate(d) && s == FormatDate(d)
    ensures ParseDDMMYYYY(s).Some?
  {
    ParseFormatRoundTrip(d);
  }

  /** Which fields the screen's text inputs write. */
  datatype TextField = ItemName | Description | Location

  /** The screen's state. `building` has no setter on this screen, so it stays "CS1". */
  class MissingReport {
    var itemName: string
    var description: string
    var images: seq<string>
    var location: string
    var building: string
    var dateLost: string
    var selectedTags: seq<string>
    var isLoading: bool
    var showDatePicker: bool
    var date: CalendarDate
    /** The date `dateLost` was formatted from, once one has been chosen. */
    ghost var chosen: Option<CalendarDate>

    ghost predicate Valid()
      reads this
    {
      && |images| <= MAX_IMAGES
      && building == "CS1"
      && ValidDate(date)
      && (chosen.None? ==> dateLost == "")
      && (chosen.Some? ==> ValidDate(chosen.value) && dateLost == FormatDate(chosen.value))
    }

    function Snapshot(): Form
      reads this
    {
      Form(itemName, description, images, location, building, dateLost, selectedTags)
    }

    /** The screen mounts with empty fields and the picker set to today. */
    constructor (today: CalendarDate)
      requires ValidDate(today)
      ensures Valid()
      ensures Snapshot() == Form("", "", [], "", "CS1", "", [])
      ensures !isLoading && !showDatePicker && date == today
    {
      itemName, description, images, location := "", "", [], "";
      building, dateLost, selectedTags := "CS1", "", [];
      isLoading, showDatePicker, date := false, false, today;
      chosen := None;
    }

    /** `onChangeText` of one of the text inputs. */
    method SetText(field: TextField, value: string)
      requires Valid()
      modifies this`itemName, this`description, this`location
      ensures Valid()
      ensures Snapshot() == match field
        case ItemName => old(Snapshot()).(itemName := value)
        case Description => old(Snapshot()).(description := value)
        case Location => old(Snapshot()).(location := value)
      ensures isLoading == old(isLoading) && date == old(date) && showDatePicker == old(showDatePicker)
    {
      match field {
        case ItemName => itemName := value;
        case Description => description := value;
        case Location => location := value;
      }
    }

    /** `handleChoosePhoto` once permission and the picker have answered; returns whether the permission alert showed. */
    method ChoosePhoto(granted: bool, result: PickerResult) returns (alerted: bool)
      requires Valid()
      modifies this`images
      ensures Valid()
      ensures alerted == !granted
      ensures Snapshot() == old(Snapshot()).(images := AfterPick(old(images), granted, result))
      ensures isLoading == old(isLoading)
    {
      if !granted {
        return true;
      }
      alerted := false;
      if !result.canceled && |result.assets| > 0 {
        if |images| < MAX_IMAGES {
          images := images + [result.assets[0]];
        }
      }
    }

    /** `removeImage(index)`. */
    method RemoveImage(index: int)
      requires Valid()
      modifies this`images
      ensures Valid()
      ensures Snapshot() == old(Snapshot()).(images := RemoveAt(old(images), index))
      ensures isLoading == old(isLoading)
    {
      images := RemoveAt(images, index);
    }

    /** `toggleTag(tag)`. */
    method ToggleTag(tag: string)
      requires Valid()
      modifies this`selectedTags
      ensures Valid()
      ensures Snapshot() == old(Snapshot()).(selectedTags := ReportForm.ToggleTag(old(selectedTags), tag))
      ensures isLoading == old(isLoading)
    {
      selectedTags := ReportForm.ToggleTag(selectedTags, tag);
    }

    /** `onChangeDate`: keep the picked date (or the old one); on Android also close the picker and write `dateLost`. */
    method ChangeDate(selected: Option<CalendarDate>, android: bool)
      requires Valid()
      requires selected.Some? ==> ValidDate(selected.value)
      modifies this`date, this`showDatePicker, this`dateLost, this`chosen
      ensures Valid()
      ensures date == (if selected.Some? then selected.value else old(date))
      ensures android ==> !showDatePicker && dateLost == FormatDate(date)
      ensures !android ==> dateLost == old(dateLost) && showDatePicker == old(showDatePicker)
      ensures Snapshot() == old(Snapshot()).(dateLost := dateLost)
    {
      date := if selected.Some? then selected.value else date;
      if android {
        showDatePicker := false;
        dateLost := FormatDate(date);
        chosen := Some(date);
      }
    }

    /** `confirmDate`: write the picker's date as `dd/mm/yyyy` and close it. */
    method ConfirmDate()
      requires Valid()
      modifies this`dateLost, this`chosen, this`showDatePicker
      ensures Valid()
      ensures dateLost == FormatDate(old(date)) && !showDatePicker
      ensures Snapshot() == old(Snapshot()).(dateLost := FormatDate(old(date)))
    {
      dateLost := FormatDate(date);
      chosen := Some(date);
      showDatePicker := false;
    }

    /** The date field's `onPress`: open the picker. */
    method OpenDatePicker()
      requires Valid()
      modifies this`showDatePicker
      ensures Valid() && showDatePicker
    {
      showDatePicker := true;
    }

    /** `cancelDate`: close the picker and keep `dateLost` as it was. */
    method CancelDate()
      requires Valid()
      modifies this`showDatePicker
      ensures Valid() && !showDatePicker
    {
      showDatePicker := false;
    }

    /**
      `handleSubmit`, given one outcome per image upload, the token and the
      response. Returns where it ended; the loading flag is untouched on the
      validation exit and false on every other exit.
     */
    method Submit(io: seq<UploadImage.UploadIo>, supabaseUrl: string, token: TokenResult, response: Response)
      returns (result: SubmitResult)
      requires Valid() && |io| == |images|
      modifies this`isLoading
      ensures Valid()
      ensures result == SubmitOutcome(old(Snapshot()), io, supabaseUrl, token, response)
      ensures !result.InvalidDate?
      ensures Snapshot() == old(Snapshot())
      ensures isLoading == (if result.MissingFields? then old(isLoading) else false)
    {
      var form := Snapshot();
      result := SubmitOutcome(form, io, supabaseUrl, token, response);
      if chosen.Some? {
        FormattedDateNeverInvalid(form, chosen.value, io, supabaseUrl, token, response);
      }
      if !result.MissingFields? {
        // `setIsLoading(true)` on entering the `try` is not observable here:
        // every later exit passes through `finally { setIsLoading(false) }`
        isLoading := false;
      }
    }
  }
}
