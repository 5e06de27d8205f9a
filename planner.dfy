/**
 * `download_whole_day`: for one date, walk 4 models x 8 run hours x 3 fields
 * in `itertools.product` order, and inside each triple member i in 0..4 and
 * level j in 0..64; build each archive's URL and folder and hand them to the
 * downloader, which is called once per archive.
 *
 * The date comes in as `year`, `month` and `day`, the fields of `localtime()`.
 */
module DayPlanner {
  import opened PyStr
  import opened Downloader

  const BaseUrl: string := "http://opendata.dwd.de/weather/nwp/icon-d2/grib"
  const Models: seq<string> := ["icosahedral_model-level", "icosahedral_pressure_level",
                                "regular-lat-lon_model-level", "regular-lat-lon_pressure-level"]
  const TimeStamps: seq<string> := ["/00", "/03", "/06", "/09", "/12", "/15", "/18", "/21"]
  const Fields: seq<string> := ["/u", "/v", "/w"]
  const Members: nat := 5
  const Levels: nat := 65
  const ArchiveBegin: string := "/icon-d2_germany"
  const ArchiveEnd: string := ".grib2.bz2"

  /** Calls per (model, run hour, field) triple: 5 members x 65 levels. */
  const BlockSize: nat := 325
  /** Calls per day: 4 x 8 x 3 triples of 325 calls. */
  const CallsPerDay: nat := 31200

  /** Indices into Models, TimeStamps and Fields, and the two inner loop counters. */
  datatype Coordinate = Coordinate(model: nat, run: nat, field: nat, member: nat, level: nat)

  predicate Valid(c: Coordinate)
  {
    c.model < |Models| && c.run < |TimeStamps| && c.field < |Fields| && c.member < Members && c.level < Levels
  }

  /** The position of a coordinate in the loop order: models slowest, levels fastest. */
  function Index(c: Coordinate): nat
  {
    (((c.model * 8 + c.run) * 3 + c.field) * 5 + c.member) * 65 + c.level
  }

  /** The coordinate of the k-th call of the day. */
  function CoordinateAt(k: nat): (c: Coordinate)
    requires k < CallsPerDay
    ensures Valid(c)
  {
    var k1 := k / 65;
    var k2 := k1 / 5;
    var k3 := k2 / 3;
    Coordinate(k3 / 8, k3 % 8, k2 % 3, k1 % 5, k % 65)
  }

  /** Every position of the day names a coordinate, and that coordinate sits at that position. */
  lemma CoordinateAtIndex(k: nat)
    requires k < CallsPerDay
    ensures Index(CoordinateAt(k)) == k
  {
    var k1 := k / 65;
    var k2 := k1 / 5;
    var k3 := k2 / 3;
    assert k == k1 * 65 + k % 65;
    assert k1 == k2 * 5 + k1 % 5;
    assert k2 == k3 * 3 + k2 % 3;
    assert k3 == (k3 / 8) * 8 + k3 % 8;
  }

  /** Every coordinate has a position in the day, and it is the only one. */
  lemma IndexOfCoordinate(c: Coordinate)
    requires Valid(c)
    ensures Index(c) < CallsPerDay && CoordinateAt(Index(c)) == c
  {
    var k3 := c.model * 8 + c.run;
    var k2 := k3 * 3 + c.field;
    var k1 := k2 * 5 + c.member;
    var k := k1 * 65 + c.level;
    assert k / 65 == k1 && k % 65 == c.level;
    assert k1 / 5 == k2 && k1 % 5 == c.member;
    assert k2 / 3 == k3 && k2 % 3 == c.field;
    assert k3 / 8 == c.model && k3 % 8 == c.run;
  }

  /** Lexicographic order on coordinates, model first and level last. */
  predicate Before(a: Coordinate, b: Coordinate)
  {
    || a.model < b.model
    || (a.model == b.model && a.run < b.run)
    || (a.model == b.model && a.run == b.run && a.field < b.field)
    || (a.model == b.model && a.run == b.run && a.field == b.field && a.member < b.member)
    || (a.model == b.model && a.run == b.run && a.field == b.field && a.member == b.member && a.level < b.level)
  }

  lemma BeforeIsIndexOrder(a: Coordinate, b: Coordinate)
    requires Valid(a) && Valid(b)
    ensures Before(a, b) <==> Index(a) < Index(b)
  {
  }

  /** The calls of a day come in lexicographic order of their coordinates. */
  lemma PlanOrderIsLexicographic(k1: nat, k2: nat)
    requires k1 < CallsPerDay && k2 < CallsPerDay
    ensures k1 < k2 <==> Before(CoordinateAt(k1), CoordinateAt(k2))
  {
    CoordinateAtIndex(k1);
    CoordinateAtIndex(k2);
    BeforeIsIndexOrder(CoordinateAt(k1), CoordinateAt(k2));
  }

  /** The (model, run hour, field) triple of a coordinate. */
  predicate SameTriple(a: Coordinate, b: Coordinate)
  {
    a.model == b.model && a.run == b.run && a.field == b.field
  }

  /** Each triple owns one block of 325 consecutive calls, starting at a multiple of 325. */
  lemma TriplesAreContiguousBlocks(k1: nat, k2: nat)
    requires k1 < CallsPerDay && k2 < CallsPerDay
    ensures SameTriple(CoordinateAt(k1), CoordinateAt(k2)) <==> k1 / BlockSize == k2 / BlockSize
  {
    var a, b := CoordinateAt(k1), CoordinateAt(k2);
    CoordinateAtIndex(k1);
    CoordinateAtIndex(k2);
    var ta := (a.model * 8 + a.run) * 3 + a.field;
    var tb := (b.model * 8 + b.run) * 3 + b.field;
    assert k1 == ta * 325 + (a.member * 65 + a.level);
    assert k2 == tb * 325 + (b.member * 65 + b.level);
    assert k1 / 325 == ta && k2 / 325 == tb;
  }

  // ---------------------------------------------------------------------------
  // Names, URLs and folders

  /** One call of the downloader: `download_grib_file(url, folder)`. */
  datatype Call = Call(url: string, folder: string)

  /** `f"{year}{month}{day}"`: the three numbers written one after another, unpadded. */
  function Today(year: nat, month: nat, day: nat): (today: string)
    ensures 3 <= |today| && AllDigits(today)
  {
    NatToString(year) + NatToString(month) + NatToString(day)
  }

  /** The f-string naming one archive. */
  function ArchiveName(model: string, today: string, timeStamp: string, field: string, i: nat, j: nat): string
  {
    ArchiveBegin + ArchiveSuffix(model, today, timeStamp, field, i, j)
  }

  /** Everything the f-string puts after `bz2_file_begin`. */
  function ArchiveSuffix(model: string, today: string, timeStamp: string, field: string, i: nat, j: nat): string
  {
    "_" + model + "_" + today + SliceFrom(timeStamp, 1) + "_00" + NatToString(i) + "_" +
    NatToString(j) + "_" + SliceFrom(field, 1) + ArchiveEnd
  }

  /** The archive a coordinate names on the given day. */
  function ArchiveOf(today: string, c: Coordinate): string
    requires Valid(c)
  {
    ArchiveName(Models[c.model], today, TimeStamps[c.run], Fields[c.field], c.member, c.level)
  }

  /** The call made for one coordinate: `url_to_icond2.join((time_stamp, field, bz2_file))`
      and `os.path.join(dest_folder, time_stamp, field)`. */
  function CallFor(dest: string, today: string, c: Coordinate): Call
    requires Valid(c)
  {
    var timeStamp, field := TimeStamps[c.run], Fields[c.field];
    Call(Join(BaseUrl, [timeStamp, field, ArchiveOf(today, c)]), PosixJoin(PosixJoin(dest, timeStamp), field))
  }

  /** The calls a day issues, in order. */
  function DayPlan(dest: string, year: nat, month: nat, day: nat): seq<Call>
  {
    DayCalls(dest, Today(year, month, day))
  }

  /** The calls of a day whose date reads `today`. */
  function DayCalls(dest: string, today: string): (calls: seq<Call>)
    ensures |calls| == CallsPerDay
  {
    seq(CallsPerDay, k requires 0 <= k < CallsPerDay => CallFor(dest, today, CoordinateAt(k)))
  }

  /** Where the block of a (model, run hour, field) triple starts. */
  function BlockStart(m: nat, t: nat, f: nat): nat
  {
    ((m * 8 + t) * 3 + f) * BlockSize
  }

  /** Inside its block, the r-th call of a triple is member r / 65 at level r % 65. */
  lemma CoordinateInBlock(m: nat, t: nat, f: nat, r: nat)
    requires m < |Models| && t < |TimeStamps| && f < |Fields| && r < BlockSize
    ensures BlockStart(m, t, f) + r < CallsPerDay
    ensures CoordinateAt(BlockStart(m, t, f) + r) == Coordinate(m, t, f, r / 65, r % 65)
  {
    var c := Coordinate(m, t, f, r / 65, r % 65);
    IndexOfCoordinate(c);
    assert Index(c) == BlockStart(m, t, f) + r;
  }

  /** The two inner loops of `download_whole_day` for one (model, run hour, field) triple. */
  method PlanTriple(dest: string, today: string, m: nat, t: nat, f: nat) returns (block: seq<Call>)
    requires m < |Models| && t < |TimeStamps| && f < |Fields|
    ensures |block| == BlockSize
    ensures forall r :: 0 <= r < BlockSize ==>
      block[r] == CallFor(dest, today, Coordinate(m, t, f, r / 65, r % 65))
  {
    var timeStamp, field := TimeStamps[t], Fields[f];
    var folder := PosixJoin(PosixJoin(dest, timeStamp), field);
    block := [];
    for i := 0 to Members
      invariant |block| == i * 65
      invariant forall r :: 0 <= r < |block| ==> block[r] == CallFor(dest, today, Coordinate(m, t, f, r / 65, r % 65))
    {
      for j := 0 to Levels
        invariant |block| == i * 65 + j
        invariant forall r :: 0 <= r < |block| ==> block[r] == CallFor(dest, today, Coordinate(m, t, f, r / 65, r % 65))
      {
        var archive := ArchiveName(Models[m], today, timeStamp, field, i, j);
        var url := Join(BaseUrl, [timeStamp, field, archive]);
        assert |block| / 65 == i && |block| % 65 == j;
        block := block + [Call(url, folder)];
      }
    }
  }

  /** The calls collected so far are the first ones of the day. */
  predicate IsPlanPrefix(calls: seq<Call>, dest: string, today: string)
  {
    |calls| <= CallsPerDay && calls == DayCalls(dest, today)[..|calls|]
  }

  /** The r-th call of a triple's block is the call of the day's entry BlockStart + r. */
  lemma BlockEntry(dest: string, today: string, m: nat, t: nat, f: nat, r: nat, call: Call)
    requires m < |Models| && t < |TimeStamps| && f < |Fields| && r < BlockSize
    requires call == CallFor(dest, today, Coordinate(m, t, f, r / 65, r % 65))
    ensures BlockStart(m, t, f) + r < CallsPerDay
    ensures call == DayCalls(dest, today)[BlockStart(m, t, f) + r]
  {
    CoordinateInBlock(m, t, f, r);
  }

  /** Appending the block of the next triple extends a prefix of the day. */
  lemma AppendBlock(calls: seq<Call>, block: seq<Call>, dest: string, today: string, m: nat, t: nat, f: nat)
    requires m < |Models| && t < |TimeStamps| && f < |Fields|
    requires IsPlanPrefix(calls, dest, today) && |calls| == BlockStart(m, t, f)
    requires |block| == BlockSize
    requires forall r :: 0 <= r < BlockSize ==>
      block[r] == CallFor(dest, today, Coordinate(m, t, f, r / 65, r % 65))
    ensures IsPlanPrefix(calls + block, dest, today)
  {
    var want, start := DayCalls(dest, today), |calls|;
    CoordinateInBlock(m, t, f, BlockSize - 1);
    forall r | 0 <= r < BlockSize
      ensures block[r] == want[start + r]
    {
      BlockEntry(dest, today, m, t, f, r, block[r]);
    }
    AppendSlice(want, calls, block, start + BlockSize);
  }

  /** A prefix of s followed by the entries of s that come next is a longer prefix. */
  lemma AppendSlice<T>(s: seq<T>, prefix: seq<T>, block: seq<T>, j: nat)
    requires |prefix| + |block| == j <= |s| && prefix == s[..|prefix|]
    requires forall r :: 0 <= r < |block| ==> block[r] == s[|prefix| + r]
    ensures prefix + block == s[..j]
  {
    assert forall n :: |prefix| <= n < j ==> (prefix + block)[n] == block[n - |prefix|];
  }

  /** `download_whole_day`'s loops, collecting the calls they make, in order. */
  method PlanWholeDay(dest: string, year: nat, month: nat, day: nat) returns (calls: seq<Call>)
    ensures calls == DayPlan(dest, year, month, day)
  {
    var today := Today(year, month, day);
    calls := [];
    for m := 0 to |Models|
      invariant |calls| == m * 7800 && IsPlanPrefix(calls, dest, today)
    {
      for t := 0 to |TimeStamps|
        invariant |calls| == m * 7800 + t * 975 && IsPlanPrefix(calls, dest, today)
      {
        for f := 0 to |Fields|
          invariant |calls| == BlockStart(m, t, f) && IsPlanPrefix(calls, dest, today)
        {
          var block := PlanTriple(dest, today, m, t, f);
          AppendBlock(calls, block, dest, today, m, t, f);
          calls := calls + block;
        }
      }
    }
    assert |calls| == CallsPerDay;
  }

  // ---------------------------------------------------------------------------
  // What the names, URLs and folders of a day look like

  /** The URL is the base URL used as a `str.join` separator: run hour, base, field, base,
      archive. So it starts with the run hour, not with "http", and holds the base URL twice. */
  lemma UrlIsSeparatorJoin(dest: string, year: nat, month: nat, day: nat, k: nat)
    requires k < CallsPerDay
    ensures var c := CoordinateAt(k);
            var url := DayPlan(dest, year, month, day)[k].url;
            && url == TimeStamps[c.run] + BaseUrl + Fields[c.field] + BaseUrl + ArchiveOf(Today(year, month, day), c)
            && url[..3] == TimeStamps[c.run]
            && url[3..3 + |BaseUrl|] == BaseUrl
            && url[5 + |BaseUrl|..5 + 2 * |BaseUrl|] == BaseUrl
  {
    var c := CoordinateAt(k);
    var ts, f, a := TimeStamps[c.run], Fields[c.field], ArchiveOf(Today(year, month, day), c);
    JoinThree(BaseUrl, ts, f, a);
    assert |ts| == 3 && |f| == 2;
    Pieces(ts, BaseUrl, f, a);
  }

  /** Where the pieces of `a + sep + b + sep + c` sit. */
  lemma Pieces(a: string, sep: string, b: string, c: string)
    ensures var s := a + sep + b + sep + c;
            && s[..|a|] == a
            && s[|a|..|a| + |sep|] == sep
            && s[|a| + |sep| + |b|..|a| + 2 * |sep| + |b|] == sep
  {
  }

  /** Both joined segments start with '/', so `os.path.join` keeps only the field:
      the folder is "/u", "/v" or "/w" whatever the destination. */
  lemma FolderIsField(dest: string, year: nat, month: nat, day: nat, k: nat)
    requires k < CallsPerDay
    ensures DayPlan(dest, year, month, day)[k].folder == Fields[CoordinateAt(k).field]
  {
    var c := CoordinateAt(k);
    assert TimeStamps[c.run][0] == '/' && Fields[c.field][0] == '/';
  }

  /** Hence the destination argument makes no difference to the calls of a day. */
  lemma DestinationIsIgnored(dest1: string, dest2: string, year: nat, month: nat, day: nat)
    ensures DayPlan(dest1, year, month, day) == DayPlan(dest2, year, month, day)
  {
    forall k | 0 <= k < CallsPerDay
      ensures DayPlan(dest1, year, month, day)[k] == DayPlan(dest2, year, month, day)[k]
    {
      FolderIsField(dest1, year, month, day, k);
      FolderIsField(dest2, year, month, day, k);
    }
  }

  predicate Plain(s: string) { '/' !in s && ' ' !in s }

  lemma PlainConcat(a: string, b: string)
    requires Plain(a) && Plain(b)
    ensures Plain(a + b)
  {
  }

  lemma DigitsArePlain(s: string)
    requires AllDigits(s)
    ensures Plain(s)
  {
    assert forall i :: 0 <= i < |s| ==> s[i] != '/' && s[i] != ' ';
  }

  lemma ModelsArePlain(m: nat)
    requires m < |Models|
    ensures Plain(Models[m])
  {
    if m == 0 { assert Plain(Models[0]); }
    else if m == 1 { assert Plain(Models[1]); }
    else if m == 2 { assert Plain(Models[2]); }
    else { assert Plain(Models[3]); }
  }

  /** The fixed pieces of an archive name hold no slash and no space. */
  lemma ConstantPiecesArePlain(c: Coordinate)
    requires Valid(c)
    ensures Plain(ArchiveBegin[1..]) && Plain(ArchiveEnd) && Plain("_") && Plain("_00")
    ensures Plain(Models[c.model]) && Plain(SliceFrom(Fields[c.field], 1))
    ensures AllDigits(SliceFrom(TimeStamps[c.run], 1))
  {
    ModelsArePlain(c.model);
    assert Plain(ArchiveBegin[1..]);
    assert Plain(ArchiveEnd);
    assert SliceFrom(TimeStamps[c.run], 1) == TimeStamps[c.run][1..];
    assert SliceFrom(Fields[c.field], 1) == Fields[c.field][1..];
  }

  /** The suffix an f-string builds from plain pieces and digits is plain. */
  lemma SuffixIsPlain(model: string, today: string, hour: string, field: string, i: nat, j: nat)
    requires Plain(model) && AllDigits(today) && AllDigits(hour) && Plain(field)
    ensures Plain("_" + model + "_" + today + hour + "_00" + NatToString(i) + "_" +
                  NatToString(j) + "_" + field + ArchiveEnd)
  {
    var member, level := NatToString(i), NatToString(j);
    DigitsArePlain(today);
    DigitsArePlain(hour);
    DigitsArePlain(member);
    DigitsArePlain(level);
    assert Plain(ArchiveEnd);
    var t1 := "_" + model + "_";
    PlainConcat("_", model);
    PlainConcat("_" + model, "_");
    var t2 := t1 + today + hour + "_00";
    PlainConcat(t1, today);
    PlainConcat(t1 + today, hour);
    PlainConcat(t1 + today + hour, "_00");
    var t3 := t2 + member + "_" + level + "_";
    PlainConcat(t2, member);
    PlainConcat(t2 + member, "_");
    PlainConcat(t2 + member + "_", level);
    PlainConcat(t2 + member + "_" + level, "_");
    PlainConcat(t3, field);
    PlainConcat(t3 + field, ArchiveEnd);
  }

  /** An archive name built from plain pieces is '/' followed by a plain name. */
  lemma NameIsPlain(model: string, today: string, timeStamp: string, field: string, i: nat, j: nat)
    requires Plain(model) && AllDigits(today)
    requires AllDigits(SliceFrom(timeStamp, 1)) && Plain(SliceFrom(field, 1))
    ensures var name := ArchiveName(model, today, timeStamp, field, i, j);
            name[0] == '/' && Plain(name[1..])
  {
    var suffix := ArchiveSuffix(model, today, timeStamp, field, i, j);
    SuffixIsPlain(model, today, SliceFrom(timeStamp, 1), SliceFrom(field, 1), i, j);
    assert Plain(ArchiveBegin[1..]);
    PlainConcat(ArchiveBegin[1..], suffix);
    assert ArchiveName(model, today, timeStamp, field, i, j)[1..] == ArchiveBegin[1..] + suffix;
  }

  /** After its leading '/', an archive name holds no slash and no space. */
  lemma ArchiveTailIsPlain(today: string, c: Coordinate)
    requires Valid(c) && AllDigits(today)
    ensures ArchiveOf(today, c)[0] == '/' && Plain(ArchiveOf(today, c)[1..])
  {
    ConstantPiecesArePlain(c);
    NameIsPlain(Models[c.model], today, TimeStamps[c.run], Fields[c.field], c.member, c.level);
  }

  /** The downloader saves each archive under its own name, without the leading '/',
      in the field folder: "/u/icon-d2_germany_...". */
  lemma SavedUnderArchiveName(dest: string, year: nat, month: nat, day: nat, k: nat)
    requires k < CallsPerDay
    ensures var c := CoordinateAt(k);
            var call := DayPlan(dest, year, month, day)[k];
            var archive := ArchiveOf(Today(year, month, day), c);
            && FileName(call.url) == archive[1..]
            && FilePath(call.folder, call.url) == Fields[c.field] + archive
  {
    var c := CoordinateAt(k);
    var call := DayPlan(dest, year, month, day)[k];
    var archive := ArchiveOf(Today(year, month, day), c);
    UrlIsSeparatorJoin(dest, year, month, day, k);
    FolderIsField(dest, year, month, day, k);
    ArchiveTailIsPlain(Today(year, month, day), c);
    var front := TimeStamps[c.run] + BaseUrl + Fields[c.field] + BaseUrl;
    assert call.url == front + archive;
    assert Fields[c.field][|Fields[c.field]| - 1] != '/';
    SavedUnderLastName(front, archive, Fields[c.field]);
  }

  /** A URL ending in "/" and a plain name is saved under that name, beside the folder. */
  lemma SavedUnderLastName(front: string, archive: string, folder: string)
    requires |archive| >= 1 && archive[0] == '/' && Plain(archive[1..])
    requires folder != [] && folder[|folder| - 1] != '/'
    ensures FileName(front + archive) == archive[1..]
    ensures FilePath(folder, front + archive) == folder + archive
  {
    var name := archive[1..];
    assert archive == "/" + name;
    assert front + archive == front + "/" + name;
    LastSegmentAfterSlash(front, name);
    ReplaceAbsent(name, ' ', '_');
  }

  /** The member segment is "_00" followed by one digit: "000" to "004". */
  lemma MemberSegment(k: nat)
    requires k < CallsPerDay
    ensures "00" + NatToString(CoordinateAt(k).member) in ["000", "001", "002", "003", "004"]
  {
    var i := CoordinateAt(k).member;
    assert NatToString(i) == [Digit(i)];
    if i == 0 { assert "00" + [Digit(0)] == "000"; }
    else if i == 1 { assert "00" + [Digit(1)] == "001"; }
    else if i == 2 { assert "00" + [Digit(2)] == "002"; }
    else if i == 3 { assert "00" + [Digit(3)] == "003"; }
    else { assert i == 4 && "00" + [Digit(4)] == "004"; }
  }

  /** The date is written unpadded: 5 March 2024 reads "202435". */
  lemma DateIsUnpadded()
    ensures Today(2024, 3, 5) == "202435"
  {
  }

  /** So 11 January and 1 November of a year plan the very same calls. */
  lemma UnpaddedDatesCollide(dest: string)
    ensures Today(2022, 1, 11) == Today(2022, 11, 1)
    ensures DayPlan(dest, 2022, 1, 11) == DayPlan(dest, 2022, 11, 1)
  {
  }

  // ---------------------------------------------------------------------------
  // Running the day through the downloader

  /** How `download_whole_day` ends: normally, or with the exception of call `at`. */
  datatype DayResult = Completed | Aborted(at: nat, error: Outcome)

  function Urls(calls: seq<Call>): seq<string>
  {
    seq(|calls|, i requires 0 <= i < |calls| => calls[i].url)
  }

  lemma UrlsCons(calls: seq<Call>, k: nat, n: nat)
    requires k < n <= |calls|
    ensures Urls(calls[k..n]) == [calls[k].url] + Urls(calls[k + 1..n])
  {
    assert calls[k..n][1..] == calls[k + 1..n];
  }

  /** How many of the calls sent a request: all of them, or those before the one that raised
      and that one too when it raised after its request. */
  function Issued(result: DayResult, n: nat): nat
  {
    match result
    case Completed => n
    case Aborted(at, error) => if error.Requested() then at + 1 else at
  }


  /** What one call of the day does to a machine. */
  type Step = (HostState, Call) -> (HostState, Outcome)

  /** The call the script makes: `download_grib_file(call.url, call.folder)` against a server
      answering `fetch`. */
  function Downloading(fetch: string -> Response): Step
  {
    (h: HostState, c: Call) => Download(h, c.url, c.folder, fetch)
  }

  /**
   * Calls k.. of a day, one after another, on the machine h: a non-ok status is only
   * reported, while a raised exception ends the day at that call.
   */
  function RunDay(h: HostState, calls: seq<Call>, step: Step, k: nat): (r: (HostState, DayResult))
    requires k <= |calls|
    ensures r.1.Aborted? ==> k <= r.1.at < |calls| && r.1.error.Raised()
    decreases |calls| - k
  {
    if k == |calls| then (h, Completed)
    else
      var d := step(h, calls[k]);
      if d.1.Raised() then (d.0, Aborted(k, d.1))
      else RunDay(d.0, calls, step, k + 1)
  }

  /** One step of the day: call k either raises and ends it or hands its machine on. */
  lemma RunDayStep(h: HostState, calls: seq<Call>, step: Step, k: nat)
    requires k < |calls|
    ensures var d := step(h, calls[k]);
            RunDay(h, calls, step, k) ==
              if d.1.Raised() then (d.0, Aborted(k, d.1)) else RunDay(d.0, calls, step, k + 1)
  {
  }

  /** Downloading never creates or removes a directory. */
  lemma {:induction false} RunDayKeepsDirs(h: HostState, calls: seq<Call>, fetch: string -> Response, k: nat)
    requires k <= |calls|
    ensures RunDay(h, calls, Downloading(fetch), k).0.dirs == h.dirs
    decreases |calls| - k
  {
    if k < |calls| {
      var step := Downloading(fetch);
      var d := step(h, calls[k]);
      RunDayStep(h, calls, step, k);
      if !d.1.Raised() {
        RunDayKeepsDirs(d.0, calls, fetch, k + 1);
      }
    }
  }

  /** A step that logs the call's URL, once, exactly when its outcome says the request
      went out, and otherwise leaves the log alone. */
  ghost predicate LogsRequests(step: Step)
  {
    forall h: HostState, c: Call ::
      step(h, c).0.requested == h.requested + (if step(h, c).1.Requested() then [c.url] else [])
  }

  /** `download_grib_file` is such a step. */
  lemma DownloadingLogsRequests(fetch: string -> Response)
    ensures LogsRequests(Downloading(fetch))
  {
  }

  /** The requests a day sends are the plan's URLs in order, from call k up to the call
      that ended it, that one included when it raised after sending its request. */
  lemma {:induction false} RunDayRequests(h: HostState, calls: seq<Call>, step: Step, k: nat)
    requires k <= |calls| && LogsRequests(step)
    ensures var r := RunDay(h, calls, step, k);
            && k <= Issued(r.1, |calls|) <= |calls|
            && r.0.requested == h.requested + Urls(calls[k..Issued(r.1, |calls|)])
    decreases |calls| - k
  {
    if k < |calls| {
      var d := step(h, calls[k]);
      RunDayStep(h, calls, step, k);
      if d.1.Raised() {
        assert Urls(calls[k..k]) == [] && Urls(calls[k..k + 1]) == [calls[k].url];
      } else {
        RunDayRequests(d.0, calls, step, k + 1);
        var r := RunDay(d.0, calls, step, k + 1);
        UrlsCons(calls, k, Issued(r.1, |calls|));
      }
    }
  }

  /** `download_whole_day(dest)` on the given date, the server answering `fetch`. */
  method DownloadWholeDay(host: Host, dest: string, year: nat, month: nat, day: nat, fetch: string -> Response)
    returns (result: DayResult)
    modifies host
    ensures (host.State(), result) == RunDay(old(host.State()), DayPlan(dest, year, month, day), Downloading(fetch), 0)
  {
    var calls := PlanWholeDay(dest, year, month, day);
    ghost var before := host.State();
    ghost var step := Downloading(fetch);
    for k := 0 to |calls|
      invariant RunDay(host.State(), calls, step, k) == RunDay(before, calls, step, 0)
    {
      ghost var now := host.State();
      var outcome := host.DownloadGribFile(calls[k].url, calls[k].folder, fetch);
      RunDayStep(now, calls, step, k);
      if outcome.Raised() {
        return Aborted(k, outcome);
      }
    }
    return Completed;
  }

  /** An abort names the first call that raised: the calls before it all returned, and
      that call, made on the machine they left, raised the recorded exception. */
  lemma {:induction false} AbortIsFirstRaise(h: HostState, calls: seq<Call>, step: Step, k: nat)
    requires k <= |calls|
    ensures var r := RunDay(h, calls, step, k);
            r.1.Aborted? ==>
              var pre := RunDay(h, calls[..r.1.at], step, k);
              && pre.1 == Completed
              && step(pre.0, calls[r.1.at]) == (r.0, r.1.error)
    decreases |calls| - k
  {
    var r := RunDay(h, calls, step, k);
    if k < |calls| && r.1.Aborted? {
      var d := step(h, calls[k]);
      RunDayStep(h, calls, step, k);
      if d.1.Raised() {
        assert RunDay(h, calls[..k], step, k) == (h, Completed);
      } else {
        AbortIsFirstRaise(d.0, calls, step, k + 1);
        var at := r.1.at;
        assert calls[..at][k] == calls[k];
        RunDayStep(h, calls[..at], step, k);
      }
    }
  }

  /** No URL of the day has an http or https scheme: each starts with its run hour. */
  lemma DayUrlsHaveNoScheme(dest: string, year: nat, month: nat, day: nat, k: nat)
    requires k < CallsPerDay
    ensures !HasHttpScheme(DayPlan(dest, year, month, day)[k].url)
  {
    UrlIsSeparatorJoin(dest, year, month, day, k);
    var url := DayPlan(dest, year, month, day)[k].url;
    assert TimeStamps[CoordinateAt(k).run][0] == '/';
    assert url[0] == '/';
    SlashFirstHasNoScheme(url);
  }

  /** So the day ends at its very first call, on any machine and whatever the server
      would answer: FileNotFoundError without a "/u", the refused URL otherwise. Nothing
      is requested and nothing is saved. */
  lemma DayEndsAtFirstCall(h: HostState, dest: string, year: nat, month: nat, day: nat,
                           fetch: string -> Response)
    ensures RunDay(h, DayPlan(dest, year, month, day), Downloading(fetch), 0) ==
            (h, Aborted(0, if PathExists(h, "/u") then BadUrl else DirectoryMissing))
  {
    FolderIsField(dest, year, month, day, 0);
    assert CoordinateAt(0).field == 0;
    DayUrlsHaveNoScheme(dest, year, month, day, 0);
    RunDayStep(h, DayPlan(dest, year, month, day), Downloading(fetch), 0);
  }
}
