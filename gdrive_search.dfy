/**
  The `gdrive_search` tool: resolve an optional shared drive, build the
  Drive filter from the trimmed query, issue one `files.list` call and
  format the files it returns.
 */
module GDriveSearch {
  import opened Strings
  import opened SharedDrive
  import QueryEscape

  /** The words that alone do not make a search, in the order of the source's regular expression. */
  const StopWords: seq<string> :=
    ["drive", "shared", "in", "from", "search", "find", "google", "gdrive",
     "for", "list", "show", "everything", "all", "files"]

  const SheetClause: string := "mimeType = 'application/vnd.google-sheets.spreadsheet'"

  const ListFields: string := "nextPageToken, files(id, name, mimeType, modifiedTime, size)"

  /** The tool's arguments; `pageToken` is forwarded as given, absent or not. */
  datatype SearchArgs = SearchArgs(query: string, pageToken: Option<string>, pageSize: int, driveName: string)

  /** Parameters of the `files.list` call; `None` is a field the source leaves unset. */
  datatype FilesListRequest = FilesListRequest(
    q: string, pageSize: int, pageToken: Option<string>, orderBy: string, fields: string,
    supportsAllDrives: bool, includeItemsFromAllDrives: bool,
    corpora: Option<string>, driveId: Option<string>)

  datatype RemoteFile = RemoteFile(id: string, name: string, mimeType: string)

  /** What `files.list` gave back (`files` may be absent; "" is an absent page token), or what it threw. */
  datatype FilesListResult = FileList(files: Option<seq<RemoteFile>>, nextPageToken: string) | ListThrew(message: string)

  /** How a search ends: with an envelope, or with the list call's exception escaping uncaught. */
  datatype Completion = Returned(response: Response) | Uncaught(message: string)

  /** The remote calls a search made, and how it ended. */
  datatype SearchRun = SearchRun(lookup: Option<DrivesListRequest>, list: Option<FilesListRequest>, outcome: Completion)

  /** `s` starts with the alternative at index `j` and with none listed before it. */
  predicate FirstMatchAt(s: string, alternatives: seq<string>, j: int) {
    && 0 <= j < |alternatives| && alternatives[j] <= s
    && forall i :: 0 <= i < j ==> !(alternatives[i] <= s)
  }

  /** The first alternative, in the order listed, that `s` starts with. */
  function FirstAlternative(s: string, alternatives: seq<string>): (r: Option<string>)
    ensures r.Some? ==> r.value in alternatives && r.value <= s
    ensures r.Some? ==> exists j :: FirstMatchAt(s, alternatives, j) && alternatives[j] == r.value
    ensures r.None? ==> forall k :: 0 <= k < |alternatives| ==> !(alternatives[k] <= s)
  {
    if alternatives == [] then None
    else if alternatives[0] <= s then
      assert FirstMatchAt(s, alternatives, 0);
      Some(alternatives[0])
    else
      var r := FirstAlternative(s, alternatives[1..]);
      FirstMatchShift(s, alternatives, r);
      r
  }

  /** A first match in the tail, after a head that does not match, is a first match of the whole list. */
  lemma FirstMatchShift(s: string, alternatives: seq<string>, r: Option<string>)
    requires |alternatives| >= 1 && !(alternatives[0] <= s)
    requires r.Some? ==> exists j :: FirstMatchAt(s, alternatives[1..], j) && alternatives[1..][j] == r.value
    ensures r.Some? ==> exists j :: FirstMatchAt(s, alternatives, j) && alternatives[j] == r.value
  {
    if r.Some? {
      var j :| FirstMatchAt(s, alternatives[1..], j) && alternatives[1..][j] == r.value;
      forall i | 0 <= i < j + 1
        ensures !(alternatives[i] <= s)
      {
        if i > 0 {
          assert alternatives[i] == alternatives[1..][i - 1];
        }
      }
      assert FirstMatchAt(s, alternatives, j + 1);
    }
  }

  /**
    `s.replace(/drive|shared|...|files/g, "")`: scanning left to right, the
    first stop word that starts at the current position is removed;
    otherwise the character there is kept.
   */
  function StripStopWords(s: string): (r: string)
    ensures |r| <= |s|
    decreases |s|
  {
    if s == [] then []
    else match FirstAlternative(s, StopWords)
      case Some(w) =>
        assert w != [];
        StripStopWords(s[|w|..])
      case None => [s[0]] + StripStopWords(s[1..])
  }

  /**
    The drive-scoped "list everything" test: the query is empty, names the
    drive, is made of stop words once "drive" appears in it, or has only
    stop words and words of the drive name.
   */
  predicate ListsEverything(userQuery: string, driveName: string) {
    var cleanedQuery := Trim(ToLower(userQuery));
    var driveNameLower := Trim(ToLower(driveName));
    || userQuery == ""
    || cleanedQuery == driveNameLower
    || MentionsOnlyDrive(cleanedQuery)
    || OnlyStopOrDriveNameWords(cleanedQuery, driveNameLower)
  }

  /** The query mentions "drive" and is blank once the stop words are cut out. */
  predicate MentionsOnlyDrive(cleanedQuery: string) {
    Contains(cleanedQuery, "drive") && Trim(StripStopWords(cleanedQuery)) == ""
  }

  /** Every whitespace-separated word is a stop word or a word of the drive name. */
  predicate OnlyStopOrDriveNameWords(cleanedQuery: string, driveNameLower: string) {
    forall word :: word in SplitWords(cleanedQuery) ==>
      word in StopWords || word in SplitWords(driveNameLower)
  }

  /** The clause matching names that contain the (escaped) query. */
  function NameClause(escapedQuery: string): string {
    "name contains '" + escapedQuery + "'"
  }

  /** The clause the filter gets when the search is scoped to a drive. */
  function ParentClause(driveId: string): string {
    " and '" + driveId + "' in parents"
  }

  function FileLine(f: RemoteFile): string {
    f.id + " " + f.name + " (" + f.mimeType + ")"
  }

  function FileLines(files: seq<RemoteFile>): (lines: seq<string>)
    ensures |lines| == |files|
    ensures forall k :: 0 <= k < |files| ==> lines[k] == FileLine(files[k])
  {
    seq(|files|, k requires 0 <= k < |files| => FileLine(files[k]))
  }

  /** The file lines joined by newlines, or "undefined" when there is no array. */
  function FileList(files: Option<seq<RemoteFile>>): string {
    if files.Some? then Join(FileLines(files.value), "\n") else "undefined"
  }

  function CountLine(files: Option<seq<RemoteFile>>): string {
    "Found " + NatToString(if files.Some? then |files.value| else 0) + " files:"
  }

  function MoreLine(nextPageToken: string): string {
    "More results available. Use pageToken: " + nextPageToken
  }

  /**
    The text of a successful search: the count line, the file list (which a
    template literal renders as "undefined" when the service sent no array)
    and, when there is a next page, a blank line and the token.
   */
  function ListingText(files: Option<seq<RemoteFile>>, nextPageToken: string): string {
    var response := CountLine(files) + "\n" + FileList(files);
    if nextPageToken != "" then response + "\n\n" + MoreLine(nextPageToken) else response
  }

  predicate NoNewline(s: string) {
    '\n' !in s
  }

  /**
    The lines the file list contributes: one per file; a single empty line
    when the array is empty (its join is ""); the single line "undefined"
    when the service sent no array.
   */
  function BodyLines(files: Option<seq<RemoteFile>>): (lines: seq<string>)
    ensures |lines| >= 1
  {
    if files.None? then ["undefined"]
    else if files.value == [] then [""]
    else FileLines(files.value)
  }

  /** No file field holds a newline. */
  predicate FieldsFree(files: Option<seq<RemoteFile>>) {
    files.Some? ==> forall k :: 0 <= k < |files.value| ==>
      NoNewline(files.value[k].id) && NoNewline(files.value[k].name) && NoNewline(files.value[k].mimeType)
  }

  /**
    Split at newlines, a listing whose fields hold no newline is the count
    line, the file list's lines in order, and a blank line plus the token
    line only when there is a next page.
   */
  lemma ListingLines(files: Option<seq<RemoteFile>>, nextPageToken: string)
    requires FieldsFree(files)
    requires NoNewline(nextPageToken)
    ensures Split(ListingText(files, nextPageToken), '\n')
            == [CountLine(files)] + BodyLines(files)
               + (if nextPageToken != "" then ["", MoreLine(nextPageToken)] else [])
  {
    ListingJoin(files, nextPageToken);
    ListingLinesFree(files, nextPageToken);
    SplitJoin(ListingLineSeq(files, nextPageToken), '\n');
  }

  /** The lines a listing is made of. */
  function ListingLineSeq(files: Option<seq<RemoteFile>>, nextPageToken: string): seq<string> {
    [CountLine(files)] + BodyLines(files)
      + (if nextPageToken != "" then ["", MoreLine(nextPageToken)] else [])
  }

  /** The listing is its lines joined by newlines. */
  lemma ListingJoin(files: Option<seq<RemoteFile>>, nextPageToken: string)
    ensures Join(ListingLineSeq(files, nextPageToken), "\n") == ListingText(files, nextPageToken)
  {
    BodyJoin(files);
    LinesJoin(CountLine(files), BodyLines(files), if nextPageToken != "" then Some(MoreLine(nextPageToken)) else None);
  }

  /** A head line, body lines and an optional blank-plus-trailer pair, joined by newlines. */
  lemma LinesJoin(head: string, body: seq<string>, trailer: Option<string>)
    requires |body| >= 1
    ensures Join([head] + body + (if trailer.Some? then ["", trailer.value] else []), "\n")
            == head + "\n" + Join(body, "\n") + (if trailer.Some? then "\n\n" + trailer.value else "")
  {
    if trailer.Some? {
      LinesJoinWithTrailer(head, body, trailer.value);
    } else {
      JoinAppend([head], body, "\n");
      assert [head] + body + [] == [head] + body;
    }
  }

  lemma LinesJoinWithTrailer(head: string, body: seq<string>, trailer: string)
    requires |body| >= 1
    ensures Join([head] + body + ["", trailer], "\n") == head + "\n" + Join(body, "\n") + "\n\n" + trailer
  {
    JoinAppend([head], body, "\n");
    JoinAppend([head] + body, ["", trailer], "\n");
    assert Join(["", trailer], "\n") == "" + "\n" + trailer;
  }

  /** The body lines join to the file list. */
  lemma BodyJoin(files: Option<seq<RemoteFile>>)
    ensures Join(BodyLines(files), "\n") == FileList(files)
  {
  }

  /** No line of a listing holds a newline when no file field does. */
  lemma ListingLinesFree(files: Option<seq<RemoteFile>>, nextPageToken: string)
    requires FieldsFree(files)
    requires NoNewline(nextPageToken)
    ensures forall k :: 0 <= k < |ListingLineSeq(files, nextPageToken)| ==>
      '\n' !in ListingLineSeq(files, nextPageToken)[k]
  {
    var all := ListingLineSeq(files, nextPageToken);
    var body := BodyLines(files);
    CountLineFree(files);
    BodyLinesFree(files);
    forall k | 0 <= k < |all|
      ensures '\n' !in all[k]
    {
      if 1 <= k <= |body| {
        assert all[k] == body[k - 1];
      }
    }
  }

  lemma CountLineFree(files: Option<seq<RemoteFile>>)
    ensures '\n' !in CountLine(files)
  {
    var n := NatToString(if files.Some? then |files.value| else 0);
    assert CountLine(files) == "Found " + n + " files:";
    assert forall j :: 0 <= j < |n| ==> n[j] != '\n';
  }

  lemma BodyLinesFree(files: Option<seq<RemoteFile>>)
    requires FieldsFree(files)
    ensures forall k :: 0 <= k < |BodyLines(files)| ==> '\n' !in BodyLines(files)[k]
  {
    if files.Some? && files.value != [] {
      forall k | 0 <= k < |files.value|
        ensures '\n' !in BodyLines(files)[k]
      {
        assert BodyLines(files)[k] == FileLine(files.value[k]);
      }
    }
  }

  /**
    The filter of a search: in a drive, everything or the name clause, both
    restricted to the drive's folder; outside one, everything for an empty
    query, else the name clause, widened to spreadsheets when the query
    mentions "sheet".
   */
  method SearchFilter(userQuery: string, driveName: string, driveId: string) returns (searchQuery: string)
    ensures driveId == "" && userQuery == "" ==> searchQuery == "trashed = false"
    ensures driveId == "" && userQuery != "" ==>
      var nameClause := NameClause(QueryEscape.Escape(userQuery));
      searchQuery == if Contains(ToLower(userQuery), "sheet")
                     then "(" + (nameClause + " or " + SheetClause) + ") and trashed = false"
                     else "(" + nameClause + ") and trashed = false"
    ensures driveId != "" && ListsEverything(userQuery, driveName) ==>
      searchQuery == "trashed = false" + ParentClause(driveId)
    ensures driveId != "" && !ListsEverything(userQuery, driveName) ==>
      searchQuery == NameClause(QueryEscape.Escape(userQuery)) + " and trashed = false" + ParentClause(driveId)
  {
    searchQuery := "";
    if driveId != "" {
      if ListsEverything(userQuery, driveName) {
        searchQuery := "trashed = false";
      } else {
        var escapedQuery := QueryEscape.Escape(userQuery);
        searchQuery := NameClause(escapedQuery) + " and trashed = false";
      }
    } else if userQuery == "" {
      searchQuery := "trashed = false";
    } else {
      var escapedQuery := QueryEscape.Escape(userQuery);
      var conditions := [NameClause(escapedQuery)];
      if Contains(ToLower(userQuery), "sheet") {
        conditions := conditions + [SheetClause];
        assert Join(conditions, " or ") == conditions[0] + " or " + SheetClause;
      }
      searchQuery := "(" + Join(conditions, " or ") + ") and trashed = false";
    }

    if driveId != "" {
      searchQuery := searchQuery + ParentClause(driveId);
    }
  }

  /**
    The search tool. The drive lookup runs only for a non-empty drive name
    and its failures end the call with an error envelope; then the filter is
    built, `files.list` is called once and its files are formatted. An
    exception from `files.list` is not caught.
   */
  method Search(args: SearchArgs, drives: DrivesListResult, listed: FilesListResult) returns (run: SearchRun)
    ensures run.lookup == if args.driveName != "" then Some(DriveLookup(args.driveName)) else None
    ensures ResolveDrive(args.driveName, drives).Failed? ==>
      run.list.None? && run.outcome == Returned(ResolveDrive(args.driveName, drives).response)
    ensures !ResolveDrive(args.driveName, drives).Failed? ==> run.list.Some?
    // the filter, case by case
    ensures run.list.Some? && ScopeId(ResolveDrive(args.driveName, drives)) == "" && Trim(args.query) == "" ==>
      run.list.value.q == "trashed = false"
    ensures run.list.Some? && ScopeId(ResolveDrive(args.driveName, drives)) == "" && Trim(args.query) != "" ==>
      var nameClause := NameClause(QueryEscape.Escape(Trim(args.query)));
      run.list.value.q == if Contains(ToLower(Trim(args.query)), "sheet")
                          then "(" + (nameClause + " or " + SheetClause) + ") and trashed = false"
                          else "(" + nameClause + ") and trashed = false"
    ensures run.list.Some? && ScopeId(ResolveDrive(args.driveName, drives)) != ""
            && ListsEverything(Trim(args.query), args.driveName) ==>
      run.list.value.q == "trashed = false" + ParentClause(ScopeId(ResolveDrive(args.driveName, drives)))
    ensures run.list.Some? && ScopeId(ResolveDrive(args.driveName, drives)) != ""
            && !ListsEverything(Trim(args.query), args.driveName) ==>
      run.list.value.q == NameClause(QueryEscape.Escape(Trim(args.query))) + " and trashed = false"
                          + ParentClause(ScopeId(ResolveDrive(args.driveName, drives)))
    // the other list parameters
    ensures run.list.Some? ==>
      && run.list.value.pageSize == (if args.pageSize != 0 then args.pageSize else 10)
      && run.list.value.pageToken == args.pageToken
      && run.list.value.orderBy == "modifiedTime desc"
      && run.list.value.fields == ListFields
      && run.list.value.supportsAllDrives && run.list.value.includeItemsFromAllDrives
    ensures run.list.Some? ==>
      var driveId := ScopeId(ResolveDrive(args.driveName, drives));
      && (run.list.value.corpora.Some? <==> driveId != "")
      && (run.list.value.driveId.Some? <==> driveId != "")
      && (driveId != "" ==> run.list.value.corpora == Some("drive") && run.list.value.driveId == Some(driveId))
    // the outcome of the list call
    ensures run.list.Some? && listed.ListThrew? ==> run.outcome == Uncaught(listed.message)
    ensures run.list.Some? && listed.FileList? ==>
      run.outcome == Returned(Reply(ListingText(listed.files, listed.nextPageToken), false))
  {
    var userQuery := Trim(args.query);
    var driveId := "";
    var lookup: Option<DrivesListRequest> := None;

    if args.driveName != "" {
      lookup := Some(DriveLookup(args.driveName));
      var resolution := ResolveDrive(args.driveName, drives);
      if resolution.Failed? {
        return SearchRun(lookup, None, Returned(resolution.response));
      }
      driveId := resolution.driveId;
    }

    var searchQuery := SearchFilter(userQuery, args.driveName, driveId);

    var listParams := FilesListRequest(searchQuery, if args.pageSize != 0 then args.pageSize else 10,
                                       args.pageToken, "modifiedTime desc", ListFields,
                                       false, false, None, None);
    if driveId != "" {
      listParams := listParams.(supportsAllDrives := true, includeItemsFromAllDrives := true,
                                corpora := Some("drive"), driveId := Some(driveId));
    } else {
      listParams := listParams.(supportsAllDrives := true, includeItemsFromAllDrives := true);
    }

    match listed {
      case ListThrew(message) =>
        run := SearchRun(lookup, Some(listParams), Uncaught(message));
      case FileList(files, nextPageToken) =>
        run := SearchRun(lookup, Some(listParams), Returned(Reply(ListingText(files, nextPageToken), false)));
    }
  }

  /** `a` is a prefix of `b`, compared character by character. */
  predicate PrefixOf(a: string, b: string) {
    a == [] || (b != [] && a[0] == b[0] && PrefixOf(a[1..], b[1..]))
  }

  lemma {:induction false} PrefixOfIsPrefix(a: string, b: string)
    ensures PrefixOf(a, b) <==> a <= b
  {
    if a != [] && b != [] {
      PrefixOfIsPrefix(a[1..], b[1..]);
    }
  }

  /** No stop word is a prefix of another one. */
  lemma StopWordsPrefixFree()
    ensures forall j, k :: 0 <= j < |StopWords| && 0 <= k < |StopWords| && j != k ==>
      !(StopWords[j] <= StopWords[k])
  {
    StopWordsNotPrefixOf();
    forall j, k | 0 <= j < |StopWords| && 0 <= k < |StopWords| && j != k
      ensures !(StopWords[j] <= StopWords[k])
    {
      PrefixOfIsPrefix(StopWords[j], StopWords[k]);
    }
  }

  /** The same, checked character by character on the word list. */
  lemma StopWordsNotPrefixOf()
    ensures forall j, k :: 0 <= j < |StopWords| && 0 <= k < |StopWords| && j != k ==>
      !PrefixOf(StopWords[j], StopWords[k])
  {
    FirstWordsNotPrefixOf();
    MiddleWordsNotPrefixOf();
    LastWordsNotPrefixOf();
  }

  lemma FirstWordsNotPrefixOf()
    ensures forall j, k :: 0 <= j < 5 && 0 <= k < |StopWords| && j != k ==>
      !PrefixOf(StopWords[j], StopWords[k])
  {
  }

  lemma MiddleWordsNotPrefixOf()
    ensures forall j, k :: 5 <= j < 10 && 0 <= k < |StopWords| && j != k ==>
      !PrefixOf(StopWords[j], StopWords[k])
  {
  }

  lemma LastWordsNotPrefixOf()
    ensures forall j, k :: 10 <= j < |StopWords| && 0 <= k < |StopWords| && j != k ==>
      !PrefixOf(StopWords[j], StopWords[k])
  {
  }

  /** Every stop word is a non-empty run of lower-case ASCII letters. */
  lemma StopWordsAreLowercaseWords()
    ensures forall k :: 0 <= k < |StopWords| ==> StopWords[k] != []
    ensures forall k, i :: 0 <= k < |StopWords| && 0 <= i < |StopWords[k]| ==> 'a' <= StopWords[k][i] <= 'z'
  {
  }

  /** Two prefixes of one string are prefixes of each other, the shorter of the longer. */
  lemma PrefixesOfOneString(a: string, b: string, s: string)
    requires a <= s && b <= s
    ensures a <= b || b <= a
  {
    if |a| <= |b| {
      assert a == b[..|a|];
    } else {
      assert b == a[..|b|];
    }
  }

  /**
    Because the alternatives are prefix-free, the one the scan removes at a
    position is the stop word written there, whatever its place in the list.
   */
  lemma FirstAlternativeIsStopWord(w: string, s: string)
    requires w in StopWords && w <= s
    ensures FirstAlternative(s, StopWords) == Some(w)
  {
    var r := FirstAlternative(s, StopWords);
    var k :| 0 <= k < |StopWords| && StopWords[k] == w;
    assert r.Some?;
    var j :| 0 <= j < |StopWords| && StopWords[j] == r.value;
    PrefixesOfOneString(r.value, w, s);
    StopWordsPrefixFree();
  }

  /** A stop word at the scan position is removed whole, whatever follows it. */
  lemma StripLeadingStopWord(w: string, rest: string)
    requires w in StopWords
    ensures StripStopWords(w + rest) == StripStopWords(rest)
  {
    var s := w + rest;
    assert s[..|w|] == w;
    assert s[|w|..] == rest;
    FirstAlternativeIsStopWord(w, s);
  }

  /** A space is kept: no stop word starts with one. */
  lemma StripKeepsSpace(rest: string)
    ensures StripStopWords(" " + rest) == " " + StripStopWords(rest)
  {
    var s := " " + rest;
    assert s[0] == ' ' && s[1..] == rest;
    StopWordsAreLowercaseWords();
    assert FirstAlternative(s, StopWords).None?;
  }

  /** Every element of `words` is one of the stop words. */
  predicate StopPhrase(words: seq<string>) {
    forall k :: 0 <= k < |words| ==> words[k] in StopWords
  }

  /** Removing the stop words from a space-separated run of stop words leaves only spaces. */
  lemma {:induction false} StopPhraseStripsToSpaces(words: seq<string>)
    requires |words| >= 1
    requires StopPhrase(words)
    ensures AllWhitespace(StripStopWords(Join(words, " ")))
    decreases |words|
  {
    if |words| == 1 {
      StripLeadingStopWord(words[0], "");
      assert words[0] + "" == words[0];
    } else {
      var tail := Join(words[1..], " ");
      StopPhraseStripsToSpaces(words[1..]);
      assert Join(words, " ") == words[0] + (" " + tail);
      StripLeadingStopWord(words[0], " " + tail);
      StripKeepsSpace(tail);
      SpaceThenWhitespace(StripStopWords(tail));
    }
  }

  lemma SpaceThenWhitespace(s: string)
    requires AllWhitespace(s)
    ensures AllWhitespace(" " + s)
  {
    assert forall k :: 1 <= k < |" " + s| ==> (" " + s)[k] == s[k - 1];
  }

  /** ... so the trimmed remainder is empty. */
  lemma StopPhraseStripsToBlank(words: seq<string>)
    requires |words| >= 1
    requires StopPhrase(words)
    ensures Trim(StripStopWords(Join(words, " "))) == ""
  {
    StopPhraseStripsToSpaces(words);
    TrimAllWhitespace(StripStopWords(Join(words, " ")));
  }

  /** The words of a stop phrase are non-empty, without whitespace and lower-case. */
  lemma StopPhraseWords(words: seq<string>)
    requires StopPhrase(words)
    ensures LowerWords(words)
  {
    StopWordsAreLowercaseWords();
    forall k | 0 <= k < |words|
      ensures IsLowerWord(words[k])
    {
      var j :| 0 <= j < |StopWords| && StopWords[j] == words[k];
    }
  }

  /**
    A query made only of stop words separated by single spaces lists the
    whole drive, whatever the drive is called.
   */
  lemma StopPhraseIsSuppressed(words: seq<string>, driveName: string)
    requires |words| >= 1
    requires StopPhrase(words)
    ensures ListsEverything(Join(words, " "), driveName)
  {
    StopPhraseIsClean(words);
    StopPhraseHasOnlyStopWords(words, Trim(ToLower(driveName)));
    CleanWordsAreSuppressed(Join(words, " "), driveName);
  }

  /** A stop phrase is already lower-case and trimmed. */
  lemma StopPhraseIsClean(words: seq<string>)
    requires |words| >= 1
    requires StopPhrase(words)
    ensures Trim(ToLower(Join(words, " "))) == Join(words, " ")
  {
    StopPhraseWords(words);
    JoinedWordsAreClean(words);
  }

  /** A query unchanged by lowering and trimming, made of stop words and drive-name words, is suppressed. */
  lemma CleanWordsAreSuppressed(query: string, driveName: string)
    requires Trim(ToLower(query)) == query
    requires OnlyStopOrDriveNameWords(query, Trim(ToLower(driveName)))
    ensures ListsEverything(query, driveName)
  {
  }

  /** Every word of a stop phrase is a stop word, whatever the drive name. */
  lemma StopPhraseHasOnlyStopWords(words: seq<string>, driveNameLower: string)
    requires |words| >= 1
    requires StopPhrase(words)
    ensures OnlyStopOrDriveNameWords(Join(words, " "), driveNameLower)
  {
    StopPhraseSplits(words);
    OnlyStopWords(Join(words, " "), words, driveNameLower);
  }

  /** A stop phrase splits back into its words. */
  lemma StopPhraseSplits(words: seq<string>)
    requires |words| >= 1
    requires StopPhrase(words)
    ensures SplitWords(Join(words, " ")) == words
  {
    StopPhraseWords(words);
    LowerWordsSplit(words);
  }

  lemma OnlyStopWords(query: string, words: seq<string>, driveNameLower: string)
    requires SplitWords(query) == words
    requires StopPhrase(words)
    ensures OnlyStopOrDriveNameWords(query, driveNameLower)
  {
  }
}
