/**
 The kill-number cache: for the next term, the red and blue numbers a
 prediction page says will not be drawn. The container is read from a
 `{next_term}.{branch}` JSON file, fetched from the two prediction pages only
 when the cached one is incomplete, and written back to the same file.
 */
module Fns {
  import opened Results
  import opened Files
  import Text
  import Order

  /** The key the container is stored under in its JSON file (`FnsContainer.token`). */
  const Token: string := "fns"

  /** `FnsContainer`: the red and blue kill numbers, as the JSON values the fields hold. */
  datatype FnsContainer = FnsContainer(red: Json, blue: Json)

  /** A container with both lists empty, as the field defaults give it. */
  const Empty: FnsContainer := FnsContainer(JArray([]), JArray([]))

  /** The JSON reader applied to a file's content: the decoded value, or `None` on a `JSONDecodeError`. */
  type Decoder = Content -> Option<Json>

  /** `data.get(key, default)` for a field whose default is an empty list. */
  function Field(fields: map<string, Json>, key: string): Json {
    if key in fields then fields[key] else JArray([])
  }

  /** `from_dict_to_cls(FnsContainer, data)`: a non-object has no `.get` and fails. */
  function FromDict(data: Json): (r: Result<FnsContainer>)
    ensures r.Ok? <==> data.JObject?
    ensures r.Err? ==> r.error == AttributeError
    ensures data == JObject(map[]) ==> r == Ok(Empty)
    ensures data.JObject? && "red" in data.fields ==> r.value.red == data.fields["red"]
    ensures data.JObject? && "red" !in data.fields ==> r.value.red == JArray([])
    ensures data.JObject? && "blue" in data.fields ==> r.value.blue == data.fields["blue"]
    ensures data.JObject? && "blue" !in data.fields ==> r.value.blue == JArray([])
  {
    match data
    case JObject(m) => Ok(FnsContainer(Field(m, "red"), Field(m, "blue")))
    case _ => Err(AttributeError)
  }

  /** `self.__dict__`: the fields by name. */
  function AsDict(c: FnsContainer): Json {
    JObject(map["red" := c.red, "blue" := c.blue])
  }

  /** `as_metadata`: the fields under the token. */
  function AsMetadata(c: FnsContainer): Json {
    JObject(map[Token := AsDict(c)])
  }

  /**
   `from_metadata(sp)`: a missing file, text that is not JSON, or an object
   without the token all give the empty container; any other top-level value
   cannot be subscripted.
   */
  function FromMetadata(fs: FileSystem, sp: FilePath, decode: Decoder): (r: Result<FnsContainer>)
    ensures sp !in fs ==> r == Ok(Empty)
    ensures sp in fs && decode(fs[sp]).None? ==> r == Ok(Empty)
    ensures sp in fs && decode(fs[sp]).Some? && decode(fs[sp]).value.JObject? && Token !in decode(fs[sp]).value.fields ==>
              r == Ok(Empty)
    ensures sp in fs && decode(fs[sp]).Some? && !decode(fs[sp]).value.JObject? ==> r == Err(TypeError)
    ensures r.Err? ==> r.error in {TypeError, AttributeError}
  {
    if sp !in fs then Ok(Empty)
    else
      match decode(fs[sp])
      case None => Ok(Empty)
      case Some(doc) =>
        match doc
        case JObject(m) => if Token in m then FromDict(m[Token]) else Ok(Empty)
        case _ => Err(TypeError)
  }

  /** Reading back what `as_metadata` wrote gives the same container, given a reader that inverts the writer. */
  lemma MetadataRoundTrip(c: FnsContainer, fs: FileSystem, sp: FilePath, decode: Decoder)
    requires decode(Document(AsMetadata(c))) == Some(AsMetadata(c))
    ensures FromMetadata(fs[sp := Document(AsMetadata(c))], sp, decode) == Ok(c)
  {
    assert AsMetadata(c).fields[Token] == AsDict(c);
  }

  /** `is_ready`: both lists are truthy. */
  predicate IsReady(c: FnsContainer) {
    Truthy(c.red) && Truthy(c.blue)
  }

  /** The empty container is never ready, and a container of two non-empty lists always is. */
  lemma ReadyIffBothNonEmpty(red: seq<string>, blue: seq<string>)
    ensures !IsReady(Empty)
    ensures IsReady(FnsContainer(Strings(red), Strings(blue))) <==> |red| > 0 && |blue| > 0
  {
  }

  /** A `FilterNums`: the term and cache directory it serves, its dotted extension and its container. */
  datatype FilterNums = FilterNums(nextTerm: string, cacheDir: seq<string>, branchExt: string, fnc: FnsContainer)

  /** The extension with a leading `.`, added only when missing. */
  function DottedExt(ext: string): (r: string)
    ensures Text.StartsWith(r, ".")
    ensures Text.StartsWith(ext, ".") ==> r == ext
    ensures !Text.StartsWith(ext, ".") ==> r == "." + ext
  {
    if Text.StartsWith(ext, ".") then ext else "." + ext
  }

  /** Normalising an extension twice is normalising it once. */
  lemma DottedExtIdempotent(ext: string)
    ensures DottedExt(DottedExt(ext)) == DottedExt(ext)
  {
  }

  /** `FilterNums(...)` with `__post_init__` applied. */
  function NewFilterNums(nextTerm: string, cacheDir: seq<string>, ext: string, fnc: FnsContainer): FilterNums {
    FilterNums(nextTerm, cacheDir, DottedExt(ext), fnc)
  }

  /** `output`: the cache file `cache_dir / f"{next_term}{branch_ext}"`. */
  function Output(f: FilterNums): (p: FilePath)
    ensures p.dir == f.cacheDir
  {
    FilePath(f.cacheDir, f.nextTerm + f.branchExt)
  }

  /**
   `from_db(sp)`: the file name must split on `.` into exactly the term and
   the extension; the container is read from the file itself. The output
   path of the result is `sp` again.
   */
  function FromDb(fs: FileSystem, sp: FilePath, decode: Decoder): (r: Result<FilterNums>)
    ensures |Text.Split(sp.name, '.')| != 2 ==> r == Err(ValueError)
    ensures |Text.Split(sp.name, '.')| == 2 ==>
              match FromMetadata(fs, sp, decode)
              case Err(e) => r == Err(e)
              case Ok(fnc) => r.Ok? && r.value.fnc == fnc && r.value.cacheDir == sp.dir
    ensures r.Ok? ==> Output(r.value) == sp
  {
    var parts := Text.Split(sp.name, '.');
    if |parts| != 2 then Err(ValueError)
    else
      match FromMetadata(fs, sp, decode)
      case Err(e) => Err(e)
      case Ok(fnc) =>
        var f := NewFilterNums(parts[0], sp.dir, parts[1], fnc);
        assert Output(f) == sp by {
          assert '.' !in parts[1];
          assert !Text.StartsWith(parts[1], ".") by {
            if |parts[1]| > 0 {
              assert parts[1][0] in parts[1];
            }
          }
          assert Text.Join(parts, '.') == parts[0] + ['.'] + Text.Join(parts[1..], '.');
          assert parts[1..] == [parts[1]];
          assert parts[0] + ['.'] + parts[1] == parts[0] + ("." + parts[1]);
        }
        Ok(f)
  }

  /** `from_db` rejects exactly the file names without exactly one `.`. */
  lemma FromDbNeedsOneDot(fs: FileSystem, sp: FilePath, decode: Decoder)
    ensures Text.Occurrences(sp.name, '.') != 1 ==> FromDb(fs, sp, decode) == Err(ValueError)
    ensures Text.Occurrences(sp.name, '.') == 1 ==> FromDb(fs, sp, decode).Ok? == FromMetadata(fs, sp, decode).Ok?
  {
    Text.SplitCount(sp.name, '.');
  }

  /** The two prediction pages: red kill numbers, then blue. */
  const RedUrl: string := "https://cp.360.cn/shdd/shax"
  const BlueUrl: string := "https://cp.360.cn/shdd/shax?LotID=220051&ItemID=20344"

  /** `_url2res[url][0]`: the field a page's numbers go to; any other URL is not a key. */
  function FieldOf(url: string): Option<string> {
    if url == RedUrl then Some("red") else if url == BlueUrl then Some("blue") else None
  }

  /** `sorted(set(filter(None, nums_text.split("-"))))`. */
  function KillNumbers(numsText: string): (nums: seq<string>)
    ensures Order.StrictlySorted(nums)
    ensures forall x :: x in nums <==> x in Text.Split(numsText, '-') && x != []
  {
    Order.SortedSet(Text.NonEmpty(Text.Split(numsText, '-')))
  }

  /** The kill numbers are the one strictly ascending list of the non-empty pieces. */
  lemma KillNumbersCanonical(numsText: string, s: seq<string>)
    requires Order.StrictlySorted(s)
    requires forall x :: x in s <==> x in Text.Split(numsText, '-') && x != []
    ensures KillNumbers(numsText) == s
  {
    Order.StrictlySortedUnique(KillNumbers(numsText), s);
  }

  /** Numbers written ascending, each once and joined by `-`, are read back as they were. */
  lemma KillNumbersOfJoin(xs: seq<string>)
    requires |xs| >= 1 && Order.StrictlySorted(xs)
    requires forall k :: 0 <= k < |xs| ==> xs[k] != [] && '-' !in xs[k]
    ensures KillNumbers(Text.Join(xs, '-')) == xs
  {
    Text.SplitJoin(xs, '-');
    KillNumbersCanonical(Text.Join(xs, '-'), xs);
  }

  /** A prediction page: its final URL, and the text of each `tr` of its `tbody` (`None` when there is none). */
  datatype KillPage = KillPage(url: string, rows: Option<seq<string>>)

  /**
   `parse_result`: a page without `tbody` fails; fewer than seven rows is an
   index error the parser swallows, leaving the container as it was; the
   seventh row from the end must split on one space into the term and the
   numbers; the numbers go to the field named by the page's URL.
   */
  function ParseResult(fnc: FnsContainer, page: KillPage): (r: Result<FnsContainer>)
    ensures page.rows.None? ==> r == Err(AttributeError)
    ensures page.rows.Some? && |page.rows.value| < 7 ==> r == Ok(fnc)
    ensures r.Err? ==> r.error in {AttributeError, ValueError, KeyError}
    ensures r.Ok? && page.rows.Some? && |page.rows.value| >= 7 ==>
              var pieces := Text.Split(page.rows.value[|page.rows.value| - 7], ' ');
              && |pieces| == 2
              && (page.url == RedUrl ==> r.value == fnc.(red := Strings(KillNumbers(pieces[1]))))
              && (page.url == BlueUrl ==> r.value == fnc.(blue := Strings(KillNumbers(pieces[1]))))
    ensures page.url != RedUrl && page.url != BlueUrl && page.rows.Some? && |page.rows.value| >= 7 ==> r.Err?
  {
    match page.rows
    case None => Err(AttributeError)
    case Some(trs) =>
      if |trs| < 7 then Ok(fnc)
      else
        var pieces := Text.Split(trs[|trs| - 7], ' ');
        if |pieces| != 2 then Err(ValueError)
        else
          var nums := Strings(KillNumbers(pieces[1]));
          match FieldOf(page.url)
          case None => Err(KeyError)
          case Some(field) => if field == "red" then Ok(fnc.(red := nums)) else Ok(fnc.(blue := nums))
  }

  /** The container `fetch` returns, and the requests it sent. */
  datatype Fetched = Fetched(result: Result<FnsContainer>, sent: seq<Request>)

  /**
   `fetch`: a ready container is returned without a request; otherwise both
   pages are requested and parsed in order, red first. A failed request
   fails the whole fetch.
   */
  function Fetch(f: FilterNums, redReply: Result<KillPage>, blueReply: Result<KillPage>): (r: Fetched)
    ensures IsReady(f.fnc) ==> r == Fetched(Ok(f.fnc), [])
    ensures !IsReady(f.fnc) ==> r.sent == [Request(RedUrl, []), Request(BlueUrl, [])]
    ensures !IsReady(f.fnc) && r.result.Ok? ==>
              && redReply.Ok? && blueReply.Ok?
              && ParseResult(f.fnc, redReply.value).Ok?
              && r.result == ParseResult(ParseResult(f.fnc, redReply.value).value, blueReply.value)
  {
    if IsReady(f.fnc) then Fetched(Ok(f.fnc), [])
    else
      var sent := [Request(RedUrl, []), Request(BlueUrl, [])];
      if redReply.Err? then Fetched(Err(redReply.error), sent)
      else if blueReply.Err? then Fetched(Err(blueReply.error), sent)
      else
        match ParseResult(f.fnc, redReply.value)
        case Err(e) => Fetched(Err(e), sent)
        case Ok(c) => Fetched(ParseResult(c, blueReply.value), sent)
  }

  /** The numbers a well-formed page carries: the second half of the seventh row from the end. */
  function PageNumbers(trs: seq<string>): seq<string>
    requires |trs| >= 7 && |Text.Split(trs[|trs| - 7], ' ')| == 2
  {
    KillNumbers(Text.Split(trs[|trs| - 7], ' ')[1])
  }

  lemma RedPageParses(fnc: FnsContainer, trs: seq<string>)
    requires |trs| >= 7 && |Text.Split(trs[|trs| - 7], ' ')| == 2
    ensures ParseResult(fnc, KillPage(RedUrl, Some(trs))) == Ok(fnc.(red := Strings(PageNumbers(trs))))
  {
    assert FieldOf(RedUrl) == Some("red");
  }

  lemma BluePageParses(fnc: FnsContainer, trs: seq<string>)
    requires |trs| >= 7 && |Text.Split(trs[|trs| - 7], ' ')| == 2
    ensures ParseResult(fnc, KillPage(BlueUrl, Some(trs))) == Ok(fnc.(blue := Strings(PageNumbers(trs))))
  {
    assert RedUrl != BlueUrl by {
      assert |RedUrl| != |BlueUrl|;
    }
    assert FieldOf(BlueUrl) == Some("blue");
  }

  /** Two pages answered from their own URLs with non-empty number lists make the container ready. */
  lemma FetchFillsBoth(f: FilterNums, red: seq<string>, blue: seq<string>)
    requires !IsReady(f.fnc)
    requires |red| >= 7 && |blue| >= 7
    requires |Text.Split(red[|red| - 7], ' ')| == 2 && |Text.Split(blue[|blue| - 7], ' ')| == 2
    requires |KillNumbers(Text.Split(red[|red| - 7], ' ')[1])| > 0
    requires |KillNumbers(Text.Split(blue[|blue| - 7], ' ')[1])| > 0
    ensures var r := Fetch(f, Ok(KillPage(RedUrl, Some(red))), Ok(KillPage(BlueUrl, Some(blue))));
            r.result.Ok? && IsReady(r.result.value)
  {
    RedPageParses(f.fnc, red);
    var c1 := f.fnc.(red := Strings(PageNumbers(red)));
    BluePageParses(c1, blue);
  }

  /** `save`: the container's metadata replaces the output file. */
  function Save(f: FilterNums, fs: FileSystem): (after: FileSystem)
    ensures after.Keys == fs.Keys + {Output(f)}
    ensures after[Output(f)] == Document(AsMetadata(f.fnc))
    ensures forall p :: p in fs && p != Output(f) ==> after[p] == fs[p]
  {
    fs[Output(f) := Document(AsMetadata(f.fnc))]
  }

  /** What `get_fns_container` leaves: the files afterwards, the container or the error, the requests sent. */
  datatype Run = Run(fs: FileSystem, result: Result<FnsContainer>, sent: seq<Request>)

  /** `get_fns_container(fns_sp)`: read the cache file, fetch when incomplete, save back, return the container. */
  function GetFnsContainer(fs: FileSystem, sp: FilePath, decode: Decoder,
                           redReply: Result<KillPage>, blueReply: Result<KillPage>): (r: Run)
    ensures r.result.Err? ==> r.fs == fs
    ensures r.result.Ok? ==> r.fs == fs[sp := Document(AsMetadata(r.result.value))]
    ensures FromDb(fs, sp, decode).Err? ==> r == Run(fs, Err(FromDb(fs, sp, decode).error), [])
  {
    match FromDb(fs, sp, decode)
    case Err(e) => Run(fs, Err(e), [])
    case Ok(f) =>
      var fetched := Fetch(f, redReply, blueReply);
      match fetched.result
      case Err(e) => Run(fs, Err(e), fetched.sent)
      case Ok(c) => Run(Save(f.(fnc := c), fs), Ok(c), fetched.sent)
  }

  /** A run over a file that already holds a ready container sends nothing and leaves the files as they were. */
  lemma ReadyFileRun(fs: FileSystem, sp: FilePath, decode: Decoder, c: FnsContainer,
                     redReply: Result<KillPage>, blueReply: Result<KillPage>)
    requires FromDb(fs, sp, decode).Ok? && FromDb(fs, sp, decode).value.fnc == c && IsReady(c)
    requires sp in fs && fs[sp] == Document(AsMetadata(c))
    ensures GetFnsContainer(fs, sp, decode, redReply, blueReply) == Run(fs, Ok(c), [])
  {
    assert fs[sp := Document(AsMetadata(c))] == fs;
  }

  /**
   Once a run has stored a ready container (a successful run leaves
   exactly `fs[sp := Document(AsMetadata(c))]`), the next run for the same
   file sends no request and returns the stored container, given a reader
   that inverts the writer.
   */
  lemma CachedRunSendsNothing(fs: FileSystem, sp: FilePath, decode: Decoder, c: FnsContainer,
                              redReply: Result<KillPage>, blueReply: Result<KillPage>)
    requires |Text.Split(sp.name, '.')| == 2 && IsReady(c)
    requires decode(Document(AsMetadata(c))) == Some(AsMetadata(c))
    ensures var stored := fs[sp := Document(AsMetadata(c))];
            GetFnsContainer(stored, sp, decode, redReply, blueReply) == Run(stored, Ok(c), [])
  {
    var stored := fs[sp := Document(AsMetadata(c))];
    MetadataRoundTrip(c, fs, sp, decode);
    assert FromDb(stored, sp, decode).Ok? && FromDb(stored, sp, decode).value.fnc == c;
    ReadyFileRun(stored, sp, decode, c, redReply, blueReply);
  }
}
