/** The remote directory listing: one `ls -la <path>` output turned into
    the sorted list of entries the remote panel shows
    (adb_copy/workers/file_list_worker.py). */
module FileList {
  import opened Text
  import opened Paths

  /** One listed entry. `permissions` is the ten-character field as it
      appears in the listing; `path` is the listed directory joined with
      `name`. */
  datatype RemoteFileInfo = RemoteFileInfo(
    name: string,
    isDir: bool,
    size: nat,
    permissions: string,
    path: string)

  /** The three captured groups of the listing-line pattern. */
  datatype LsMatch = LsMatch(permissions: string, size: nat, name: string)

  // ---------------------------------------------------------------------
  // Matching one line

  /** The permission class `[drwx-]`: set-uid, set-gid and sticky markers
      (`s`, `S`, `t`, `T`) are not in it. */
  predicate IsPermChar(c: char) {
    c == 'd' || c == 'r' || c == 'w' || c == 'x' || c == '-'
  }

  predicate IsPermField(s: string) {
    |s| == 10 && forall i :: 0 <= i < 10 ==> IsPermChar(s[i])
  }

  /** `a` is a trailing part of `b`. */
  predicate IsSuffix(a: string, b: string) {
    |a| <= |b| && a == b[|b| - |a|..]
  }

  lemma SuffixTransitive(a: string, b: string, c: string)
    requires IsSuffix(a, b) && IsSuffix(b, c)
    ensures IsSuffix(a, c)
  {
    assert c[|c| - |b|..][|b| - |a|..] == c[|c| - |a|..];
  }

  /** Consumes `\s+`: the text after a non-empty run of whitespace. */
  function SkipSpaces(s: string): (r: Option<string>)
    ensures r.Some? ==> |r.value| < |s| && IsSuffix(r.value, s)
  {
    var n := SpaceLength(s);
    if n == 0 then None else Some(s[n..])
  }

  /** Splits off the leading whitespace-free token (possibly empty). */
  function TakeToken(s: string): (r: (string, string))
    ensures r.0 + r.1 == s && NoSpace(r.0) && IsSuffix(r.1, s)
    ensures r.1 == [] || IsSpace(r.1[0])
  {
    var n := WordLength(s);
    assert s[..n] + s[n..] == s;
    (s[..n], s[n..])
  }

  /** `\s+\S+`: a non-empty token after whitespace, and the text after it. */
  function NextToken(s: string): (r: Option<(string, string)>)
    ensures r.Some? ==> r.value.0 != [] && NoSpace(r.value.0) && IsSuffix(r.value.1, s)
  {
    match SkipSpaces(s)
    case None => None
    case Some(t) =>
      var (tok, rest) := TakeToken(t);
      if tok == [] then None
      else
        SuffixTransitive(rest, t, s);
        Some((tok, rest))
  }

  /** `\d{4}-\d{2}-\d{2}` as a whole token. */
  predicate IsIsoDate(t: string) {
    |t| == 10 && t[4] == '-' && t[7] == '-' &&
    AllDigits(t[..4]) && AllDigits(t[5..7]) && AllDigits(t[8..])
  }

  /** `\w{3}` as a whole token. */
  predicate IsMonth(t: string) {
    |t| == 3 && IsWordChar(t[0]) && IsWordChar(t[1]) && IsWordChar(t[2])
  }

  /** `\d{1,2}:\d{2}` or `\d{4}` as a whole token. */
  predicate IsTimeOrYear(t: string) {
    (|t| == 4 && AllDigits(t)) ||
    (|t| == 4 && IsDigit(t[0]) && t[1] == ':' && AllDigits(t[2..])) ||
    (|t| == 5 && AllDigits(t[..2]) && t[2] == ':' && AllDigits(t[3..]))
  }

  /** The part `\s+\d+\s+\S+\s+\S+\s+(\d+)` after the permission field:
      link count, owner, group and size, each a whole token. Yields the size
      token and the text after it. */
  function MatchCounts(s: string): (r: Option<(string, string)>)
    ensures r.Some? ==> r.value.0 != [] && AllDigits(r.value.0) && IsSuffix(r.value.1, s)
  {
    match NextToken(s)
    case None => None
    case Some((links, s2)) =>
      if !AllDigits(links) then None else
      match NextToken(s2)
      case None => None
      case Some((owner, s3)) =>
        match NextToken(s3)
        case None => None
        case Some((group, s4)) =>
          match NextToken(s4)
          case None => None
          case Some((size, s5)) =>
            if !AllDigits(size) then None
            else
              SuffixTransitive(s3, s2, s);
              SuffixTransitive(s4, s3, s);
              SuffixTransitive(s5, s4, s);
              Some((size, s5))
  }

  /** The part `\s+(?:\d{4}-\d{2}-\d{2}|\w{3}\s+\d{1,2})` : the date,
      either ISO or month and day. Yields the text after it. */
  function MatchDate(s: string): (r: Option<string>)
    ensures r.Some? ==> IsSuffix(r.value, s)
  {
    match NextToken(s)
    case None => None
    case Some((d, rest)) =>
      if IsIsoDate(d) then Some(rest)
      else if IsMonth(d) then
        match NextToken(rest)
        case None => None
        case Some((day, rest2)) =>
          if |day| <= 2 && AllDigits(day) then
            SuffixTransitive(rest2, rest, s);
            Some(rest2)
          else None
      else None
  }

  /** The tail `\s+(.+)$` after the time-or-year token: the name is all of
      the remaining text. When only whitespace remains, the pattern backs
      off one whitespace character and takes that as the name. A line never
      holds a newline (lines come from splitting on it), so `.` and `$` need
      no newline case. */
  function NameTail(s: string): (r: Option<string>)
    ensures r.Some? ==> r.value != [] && IsSuffix(r.value, s)
  {
    var n := SpaceLength(s);
    if n == 0 then None
    else if n < |s| then Some(s[n..])
    else if n >= 2 then Some(s[n - 1..])
    else None
  }

  /** The part `\s+(?:\d{1,2}:\d{2}|\d{4})\s+(.+)$` : the time or year,
      then the name. */
  function MatchTimeAndName(s: string): (r: Option<string>)
    ensures r.Some? ==> r.value != [] && IsSuffix(r.value, s)
  {
    match NextToken(s)
    case None => None
    case Some((time, rest)) =>
      if !IsTimeOrYear(time) then None
      else
        match NameTail(rest)
        case None => None
        case Some(name) =>
          SuffixTransitive(name, rest, s);
          Some(name)
  }

  /** The listing-line pattern
        ^([drwx-]{10})\s+\d+\s+\S+\s+\S+\s+(\d+)\s+
        (?:\d{4}-\d{2}-\d{2}|\w{3}\s+\d{1,2})\s+(?:\d{1,2}:\d{2}|\d{4})\s+(.+)$
      read left to right. Every fixed field is a whole whitespace-separated
      token (each is followed by `\s+`, which cannot start inside it), so a
      deterministic tokenizer finds the same match. The name keeps its inner
      spaces: it is a trailing part of the line. */
  function MatchLine(line: string): (r: Option<LsMatch>)
    ensures r.Some? ==> |line| >= 10 && IsPermField(r.value.permissions) && r.value.permissions == line[..10]
    ensures r.Some? ==> r.value.name != [] && IsSuffix(r.value.name, line[10..])
  {
    if |line| < 10 || !IsPermField(line[..10]) then None
    else
      match MatchCounts(line[10..])
      case None => None
      case Some((size, s1)) =>
        match MatchDate(s1)
        case None => None
        case Some(s2) =>
          match MatchTimeAndName(s2)
          case None => None
          case Some(name) =>
            SuffixTransitive(s2, s1, line[10..]);
            SuffixTransitive(name, s2, line[10..]);
            Some(LsMatch(line[..10], DigitsValue(size), name))
  }

  // ---------------------------------------------------------------------
  // From lines to entries

  function EntryOf(m: LsMatch, basePath: string): RemoteFileInfo {
    RemoteFileInfo(
      m.name,
      |m.permissions| > 0 && m.permissions[0] == 'd',
      m.size,
      m.permissions,
      ChildPath(basePath, m.name))
  }

  /** What one raw line contributes: nothing for a blank line, a `total`
      line, a line the pattern rejects, or the entries `.` and `..`. */
  function LineEntry(rawLine: string, basePath: string): (r: Option<RemoteFileInfo>)
    ensures Strip(rawLine) == [] || StartsWith(Strip(rawLine), "total") || MatchLine(Strip(rawLine)).None?
            ==> r.None?
    ensures r.Some? ==> MatchLine(Strip(rawLine)) == Some(LsMatch(r.value.permissions, r.value.size, r.value.name))
    ensures r.Some? ==> r.value.name != "." && r.value.name != ".." && r.value.path == ChildPath(basePath, r.value.name)
                        && (r.value.isDir <==> r.value.permissions[0] == 'd')
  {
    var line := Strip(rawLine);
    if line == [] || StartsWith(line, "total") then None
    else
      match MatchLine(line)
      case None => None
      case Some(m) =>
        if m.name == "." || m.name == ".." then None else Some(EntryOf(m, basePath))
  }

  /** The entries of the accepted lines, in line order. */
  function Collected(lines: seq<string>, basePath: string): seq<RemoteFileInfo> {
    if |lines| == 0 then []
    else
      var last := LineEntry(lines[|lines| - 1], basePath);
      Collected(lines[..|lines| - 1], basePath) + (if last.Some? then [last.value] else [])
  }

  /** `output.strip().split("\n")`, or no lines when the output is blank. */
  function ListingLines(output: string): seq<string> {
    if Strip(output) == [] then [] else Split(Strip(output), '\n')
  }

  /** Whitespace-only output has no lines at all, and a blank line or a
      line starting with `total` (after stripping) contributes no entry. */
  lemma SkippedLines(output: string, rawLine: string, basePath: string)
    ensures AllSpace(output) ==> ListingLines(output) == []
    ensures AllSpace(rawLine) ==> LineEntry(rawLine, basePath) == None
    ensures StartsWith(Strip(rawLine), "total") ==> LineEntry(rawLine, basePath) == None
  {
    StripEmpty(output);
    StripEmpty(rawLine);
  }

  // ---------------------------------------------------------------------
  // The sort: directories first, then by lower-cased name, stable

  /** The sort key `(not is_dir, name.lower())` as a pair. */
  function Key(e: RemoteFileInfo): (bool, string) {
    (!e.isDir, Lower(e.name))
  }

  /** Key order: `False < True` on the first component, then the string
      order on lower-cased names. */
  predicate KeyLe(a: RemoteFileInfo, b: RemoteFileInfo) {
    (a.isDir && !b.isDir) || (a.isDir == b.isDir && LexLe(Lower(a.name), Lower(b.name)))
  }

  predicate Sorted(s: seq<RemoteFileInfo>) {
    forall i, j :: 0 <= i < j < |s| ==> KeyLe(s[i], s[j])
  }

  /** The subsequence of entries whose key is `k`. */
  function WithKey(s: seq<RemoteFileInfo>, k: (bool, string)): seq<RemoteFileInfo> {
    if |s| == 0 then []
    else (if Key(s[0]) == k then [s[0]] else []) + WithKey(s[1..], k)
  }

  /** Inserts `e` before the first entry whose key is not smaller. */
  function Insert(e: RemoteFileInfo, s: seq<RemoteFileInfo>): seq<RemoteFileInfo> {
    if |s| == 0 then [e]
    else if KeyLe(e, s[0]) then [e] + s
    else [s[0]] + Insert(e, s[1..])
  }

  /** A stable sort by `Key`, standing for `list.sort(key=...)`: it
      rearranges its input, and SortEntriesCorrect shows the order. */
  function SortEntries(s: seq<RemoteFileInfo>): (r: seq<RemoteFileInfo>)
    ensures multiset(r) == multiset(s)
  {
    if |s| == 0 then []
    else
      InsertMultiset(s[0], SortEntries(s[1..]));
      assert s == [s[0]] + s[1..];
      Insert(s[0], SortEntries(s[1..]))
  }

  lemma {:induction false} LexLeReflexive(a: string)
    ensures LexLe(a, a)
  {
    if |a| > 0 {
      LexLeReflexive(a[1..]);
    }
  }

  lemma KeyLeTotal(a: RemoteFileInfo, b: RemoteFileInfo)
    ensures KeyLe(a, b) || KeyLe(b, a)
  {
    LexLeTotal(Lower(a.name), Lower(b.name));
  }

  lemma KeyLeTransitive(a: RemoteFileInfo, b: RemoteFileInfo, c: RemoteFileInfo)
    requires KeyLe(a, b) && KeyLe(b, c)
    ensures KeyLe(a, c)
  {
    if a.isDir == b.isDir == c.isDir {
      LexLeTransitive(Lower(a.name), Lower(b.name), Lower(c.name));
    }
  }

  /** Entries with equal keys are ordered both ways. */
  lemma KeyLeOfSameKey(a: RemoteFileInfo, b: RemoteFileInfo)
    requires Key(a) == Key(b)
    ensures KeyLe(a, b)
  {
    LexLeReflexive(Lower(a.name));
  }

  lemma {:induction false} InsertMultiset(e: RemoteFileInfo, s: seq<RemoteFileInfo>)
    ensures multiset(Insert(e, s)) == multiset(s) + multiset{e}
  {
    if |s| > 0 && !KeyLe(e, s[0]) {
      InsertMultiset(e, s[1..]);
      assert s == [s[0]] + s[1..];
    }
  }

  lemma {:induction false} InsertSorted(e: RemoteFileInfo, s: seq<RemoteFileInfo>)
    requires Sorted(s)
    ensures Sorted(Insert(e, s))
  {
    if |s| == 0 {
    } else if KeyLe(e, s[0]) {
      var r := [e] + s;
      forall i, j | 0 <= i < j < |r| ensures KeyLe(r[i], r[j]) {
        if i == 0 && j > 1 {
          KeyLeTransitive(e, s[0], s[j - 1]);
        }
      }
    } else {
      KeyLeTotal(e, s[0]);
      InsertSorted(e, s[1..]);
      InsertMultiset(e, s[1..]);
      var t := Insert(e, s[1..]);
      var r := [s[0]] + t;
      forall i, j | 0 <= i < j < |r| ensures KeyLe(r[i], r[j]) {
        if i == 0 {
          assert r[j] in multiset(t);
          assert r[j] == e || r[j] in multiset(s[1..]);
          if r[j] != e {
            var k :| 1 <= k < |s| && s[k] == r[j];
          }
        }
      }
    }
  }

  /** Inserting `e` adds it to its key's subsequence in front, and leaves
      every other key's subsequence as it was. */
  lemma {:induction false} InsertWithKey(e: RemoteFileInfo, s: seq<RemoteFileInfo>, k: (bool, string))
    ensures WithKey(Insert(e, s), k) == (if Key(e) == k then [e] else []) + WithKey(s, k)
  {
    if |s| == 0 {
    } else if KeyLe(e, s[0]) {
      assert ([e] + s)[1..] == s;
    } else {
      if Key(s[0]) == Key(e) {
        KeyLeOfSameKey(e, s[0]);
      }
      InsertWithKey(e, s[1..], k);
      assert ([s[0]] + Insert(e, s[1..]))[1..] == Insert(e, s[1..]);
    }
  }

  /** The sort orders by key, permutes its input, and keeps the input order
      of entries with equal keys. */
  lemma {:induction false} SortEntriesCorrect(s: seq<RemoteFileInfo>)
    ensures Sorted(SortEntries(s))
    ensures multiset(SortEntries(s)) == multiset(s)
    ensures forall k :: WithKey(SortEntries(s), k) == WithKey(s, k)
  {
    if |s| > 0 {
      SortEntriesCorrect(s[1..]);
      InsertSorted(s[0], SortEntries(s[1..]));
      forall k ensures WithKey(SortEntries(s), k) == WithKey(s, k) {
        InsertWithKey(s[0], SortEntries(s[1..]), k);
      }
    }
  }

  // ---------------------------------------------------------------------
  // Properties of the accepted entries

  /** Every collected entry came from an accepted line: its name is not `.`
      or `..`, its path is the listed directory joined with its name, its
      permission field is ten characters of the class, and it is a
      directory exactly when that field starts with `d`. There are never
      more entries than lines. */
  lemma {:induction false} CollectedEntries(lines: seq<string>, basePath: string)
    ensures |Collected(lines, basePath)| <= |lines|
    ensures forall e :: e in Collected(lines, basePath) ==>
      && e.name != "." && e.name != ".." && e.name != []
      && e.path == RStripChar(basePath, '/') + "/" + e.name
      && IsPermField(e.permissions)
      && (e.isDir <==> e.permissions[0] == 'd')
  {
    if |lines| > 0 {
      CollectedEntries(lines[..|lines| - 1], basePath);
    }
  }

  /** The position of the line the k-th collected entry was read from. */
  ghost function OriginLine(lines: seq<string>, basePath: string, k: nat): (j: nat)
    requires k < |Collected(lines, basePath)|
    ensures j < |lines| && LineEntry(lines[j], basePath) == Some(Collected(lines, basePath)[k])
    decreases |lines|
  {
    var init := lines[..|lines| - 1];
    CollectedSnoc(lines, basePath);
    if k < |Collected(init, basePath)| then
      var j := OriginLine(init, basePath, k);
      assert lines[j] == init[j];
      j
    else
      |lines| - 1
  }

  /** Each entry of the collected list is the entry of some input line. */
  lemma CollectedOrigin(lines: seq<string>, basePath: string, k: nat)
    requires k < |Collected(lines, basePath)|
    ensures exists j :: 0 <= j < |lines| && LineEntry(lines[j], basePath) == Some(Collected(lines, basePath)[k])
  {
    var j := OriginLine(lines, basePath, k);
  }

  /** The entries appear in the order of their lines: a later entry comes
      from a later line. */
  lemma {:induction false} CollectedInLineOrder(lines: seq<string>, basePath: string, k1: nat, k2: nat)
    requires k1 < k2 < |Collected(lines, basePath)|
    ensures OriginLine(lines, basePath, k1) < OriginLine(lines, basePath, k2)
  {
    var init := lines[..|lines| - 1];
    CollectedSnoc(lines, basePath);
    if k2 < |Collected(init, basePath)| {
      CollectedInLineOrder(init, basePath, k1, k2);
    }
  }

  lemma CollectedSnoc(lines: seq<string>, basePath: string)
    requires |lines| > 0
    ensures var c := Collected(lines[..|lines| - 1], basePath);
      var last := LineEntry(lines[|lines| - 1], basePath);
      Collected(lines, basePath) == c + (if last.Some? then [last.value] else [])
  {
  }

  // ---------------------------------------------------------------------
  // The parser

  /** Parses the text of `ls -la <basePath>`: blank and `total` lines and
      lines that do not match are skipped, `.` and `..` are dropped, and the
      entries are sorted with directories first, then by lower-cased name,
      keeping the input order among equal keys. */
  method ParseLsOutput(output: string, basePath: string) returns (files: seq<RemoteFileInfo>)
    ensures files == SortEntries(Collected(ListingLines(output), basePath))
    ensures Strip(output) == [] ==> files == []
  {
    files := [];
    if Strip(output) == [] {
      return;
    }
    var lines := Split(Strip(output), '\n');
    for i := 0 to |lines|
      invariant files == Collected(lines[..i], basePath)
    {
      assert lines[..i + 1][..i] == lines[..i];
      var line := Strip(lines[i]);
      if line == [] || StartsWith(line, "total") {
        continue;
      }
      var m := MatchLine(line);
      if m.None? {
        continue;
      }
      if m.value.name == "." || m.value.name == ".." {
        continue;
      }
      files := files + [EntryOf(m.value, basePath)];
    }
    assert lines[..|lines|] == lines;
    files := SortEntries(files);
  }

  /** What the parser promises about its result as a whole: directories
      before files, names non-decreasing (ignoring case) within each group,
      a permutation of the accepted entries with equal keys in input order,
      and no more entries than lines. */
  lemma ParsedListingProperties(output: string, basePath: string)
    ensures var files := SortEntries(Collected(ListingLines(output), basePath));
      && (forall i, j :: 0 <= i < j < |files| && files[j].isDir ==> files[i].isDir)
      && (forall i, j :: 0 <= i < j < |files| && files[i].isDir == files[j].isDir ==>
            LexLe(Lower(files[i].name), Lower(files[j].name)))
      && multiset(files) == multiset(Collected(ListingLines(output), basePath))
      && (forall k :: WithKey(files, k) == WithKey(Collected(ListingLines(output), basePath), k))
      && |files| <= |ListingLines(output)|
  {
    var c := Collected(ListingLines(output), basePath);
    SortEntriesCorrect(c);
    CollectedEntries(ListingLines(output), basePath);
    calc {
      |SortEntries(c)|;
      |multiset(SortEntries(c))|;
      |multiset(c)|;
      |c|;
    }
  }

  // ---------------------------------------------------------------------
  // Concrete lines

  /** `NextToken` on whitespace, a token and the text after it. */
  lemma NextTokenOf(sp: string, tok: string, rest: string)
    requires IsBlank(sp)
    requires tok != [] && NoSpace(tok)
    requires rest == [] || IsSpace(rest[0])
    ensures NextToken(sp + (tok + rest)) == Some((tok, rest))
  {
    var s := sp + (tok + rest);
    SpaceLengthIs(s, |sp|);
    assert s[|sp|..] == tok + rest;
    WordLengthIs(tok + rest, |tok|);
    assert (tok + rest)[..|tok|] == tok && (tok + rest)[|tok|..] == rest;
  }

  /** A non-empty run of whitespace. */
  predicate IsBlank(sp: string) {
    sp != [] && AllSpace(sp)
  }

  /** A whole token: non-empty, free of whitespace. */
  predicate IsToken(t: string) {
    t != [] && NoSpace(t)
  }

  lemma MatchCountsSteps(s: string, s2: string, s3: string, s4: string, s5: string,
                         links: string, owner: string, group: string, size: string)
    requires NextToken(s) == Some((links, s2)) && AllDigits(links)
    requires NextToken(s2) == Some((owner, s3)) && NextToken(s3) == Some((group, s4))
    requires NextToken(s4) == Some((size, s5)) && AllDigits(size)
    ensures MatchCounts(s) == Some((size, s5))
  {
  }

  lemma MatchLineSteps(line: string, size: string, s1: string, s2: string, name: string)
    requires |line| >= 10 && IsPermField(line[..10])
    requires MatchCounts(line[10..]) == Some((size, s1))
    requires MatchDate(s1) == Some(s2) && MatchTimeAndName(s2) == Some(name)
    ensures AllDigits(size) && MatchLine(line) == Some(LsMatch(line[..10], DigitsValue(size), name))
  {
  }

  // ---------------------------------------------------------------------
  // The shape of a matching line

  /** The date part: `YYYY-MM-DD`, or a month and a day with whitespace
      between them. */
  datatype DateField = IsoDate(date: string) | MonthDay(month: string, gap: string, day: string)

  /** A listing line cut into the pieces of the pattern: the permission
      field, then a run of whitespace before each of link count, owner,
      group, size, date, time-or-year and name. Each run is its own
      string, so columns padded unevenly (as `ls -la` pads them) are
      covered. */
  datatype LsLayout = LsLayout(
    perm: string,
    g1: string, links: string, g2: string, owner: string, g3: string, group: string,
    g4: string, size: string, g5: string, date: DateField, g6: string, time: string,
    g7: string, name: string)

  function DateText(d: DateField): string {
    match d
    case IsoDate(t) => t
    case MonthDay(m, g, day) => m + (g + day)
  }

  /** The line a layout spells. */
  function LayoutText(l: LsLayout): string {
    l.perm + (l.g1 + (l.links + (l.g2 + (l.owner + (l.g3 + (l.group + (l.g4 + (l.size
      + (l.g5 + (DateText(l.date) + (l.g6 + (l.time + (l.g7 + l.name)))))))))))))
  }

  /** `\d{4}-\d{2}-\d{2}`, or `\w{3}\s+\d{1,2}`. */
  predicate WellFormedDate(d: DateField) {
    match d
    case IsoDate(t) => IsToken(t) && IsIsoDate(t)
    case MonthDay(m, g, day) =>
      IsToken(m) && IsMonth(m) && IsBlank(g) && IsToken(day) && |day| <= 2 && AllDigits(day)
  }

  /** What `(.+)$` can capture after `\s+`: text that does not start with
      whitespace, or a single character when only whitespace follows the
      time (the `\s+` before it gives that character back). */
  predicate IsNameText(name: string) {
    name != [] && (!IsSpace(name[0]) || |name| == 1)
  }

  predicate WellFormedLayout(l: LsLayout) {
    IsPermField(l.perm)
    && IsBlank(l.g1) && IsToken(l.links) && AllDigits(l.links)
    && IsBlank(l.g2) && IsToken(l.owner) && IsBlank(l.g3) && IsToken(l.group)
    && IsBlank(l.g4) && IsToken(l.size) && AllDigits(l.size)
    && IsBlank(l.g5) && WellFormedDate(l.date)
    && IsBlank(l.g6) && IsToken(l.time) && IsTimeOrYear(l.time)
    && IsBlank(l.g7) && IsNameText(l.name)
  }

  /** The whitespace `NextToken` skipped before its token. */
  ghost function GapOf(s: string): (gap: string)
    requires NextToken(s).Some?
    ensures IsBlank(gap) && IsToken(NextToken(s).value.0)
    ensures s == gap + (NextToken(s).value.0 + NextToken(s).value.1)
    ensures NextToken(s).value.1 == [] || IsSpace(NextToken(s).value.1[0])
  {
    var n := SpaceLength(s);
    NextTokenSplit(s);
    BlankPrefix(s);
    s[..n]
  }

  /** `NextToken` takes its token from the text after the leading
      whitespace, which is not empty. */
  lemma NextTokenSplit(s: string)
    requires NextToken(s).Some?
    ensures SpaceLength(s) > 0 && NextToken(s).value == TakeToken(s[SpaceLength(s)..])
  {
  }

  /** The leading whitespace and the rest make up the text. */
  lemma BlankPrefix(s: string)
    ensures AllSpace(s[..SpaceLength(s)]) && s == s[..SpaceLength(s)] + s[SpaceLength(s)..]
  {
    var n := SpaceLength(s);
    var gap := s[..n];
    forall i | 0 <= i < |gap| ensures IsSpace(gap[i]) {
      assert gap[i] == s[i];
    }
    assert gap + s[n..] == s;
  }

  /** Link count, owner, group and size, each after its own whitespace. */
  lemma MatchCountsOf(g1: string, links: string, g2: string, owner: string, g3: string,
                      group: string, g4: string, size: string, rest: string)
    requires IsBlank(g1) && IsToken(links) && AllDigits(links) && IsBlank(g2) && IsToken(owner)
    requires IsBlank(g3) && IsToken(group) && IsBlank(g4) && IsToken(size) && AllDigits(size)
    requires rest == [] || IsSpace(rest[0])
    ensures MatchCounts(g1 + (links + (g2 + (owner + (g3 + (group + (g4 + (size + rest))))))))
         == Some((size, rest))
  {
    var t4 := g4 + (size + rest);
    var t3 := g3 + (group + t4);
    var t2 := g2 + (owner + t3);
    var s := g1 + (links + t2);
    NextTokenOf(g1, links, t2);
    NextTokenOf(g2, owner, t3);
    NextTokenOf(g3, group, t4);
    NextTokenOf(g4, size, rest);
    MatchCountsSteps(s, t2, t3, t4, rest, links, owner, group, size);
  }

  /** Either date form after whitespace. */
  lemma MatchDateOf(g: string, d: DateField, rest: string)
    requires IsBlank(g) && WellFormedDate(d) && rest != [] && IsSpace(rest[0])
    ensures MatchDate(g + (DateText(d) + rest)) == Some(rest)
  {
    match d
    case IsoDate(t) =>
      NextTokenOf(g, t, rest);
    case MonthDay(m, g2, day) =>
      Associative(m, g2 + day, rest);
      Associative(g2, day, rest);
      NextTokenOf(g, m, g2 + (day + rest));
      NextTokenOf(g2, day, rest);
      assert !IsIsoDate(m);
  }

  /** `\s+(.+)$` on whitespace and a name. */
  lemma NameTailOf(g: string, name: string)
    requires IsBlank(g) && IsNameText(name)
    ensures NameTail(g + name) == Some(name)
  {
    var s := g + name;
    if IsSpace(name[0]) {
      SpaceLengthIs(s, |s|);
      assert s[|s| - 1..] == name;
    } else {
      SpaceLengthIs(s, |g|);
      assert s[|g|..] == name;
    }
  }

  /** The time or year, then the name, each after its own whitespace. */
  lemma MatchTimeOf(g6: string, time: string, g7: string, name: string)
    requires IsBlank(g6) && IsToken(time) && IsTimeOrYear(time) && IsBlank(g7) && IsNameText(name)
    ensures MatchTimeAndName(g6 + (time + (g7 + name))) == Some(name)
  {
    NextTokenOf(g6, time, g7 + name);
    NameTailOf(g7, name);
  }

  /** Every well-formed line matches, whatever whitespace separates its
      fields and in either date form: the permission field and the size's
      value are captured, and the name is everything after the whitespace
      that follows the time, inner spaces included (a file called
      "a b.txt" keeps its name). */
  lemma LayoutMatches(l: LsLayout)
    requires WellFormedLayout(l)
    ensures MatchLine(LayoutText(l)) == Some(LsMatch(l.perm, DigitsValue(l.size), l.name))
  {
    var t6 := l.g6 + (l.time + (l.g7 + l.name));
    var t5 := l.g5 + (DateText(l.date) + t6);
    var t1 := l.g1 + (l.links + (l.g2 + (l.owner + (l.g3 + (l.group + (l.g4 + (l.size + t5)))))));
    var line := LayoutText(l);
    assert line == l.perm + t1;
    assert line[..10] == l.perm && line[10..] == t1;
    MatchCountsOf(l.g1, l.links, l.g2, l.owner, l.g3, l.group, l.g4, l.size, t5);
    MatchDateOf(l.g5, l.date, t6);
    MatchTimeOf(l.g6, l.time, l.g7, l.name);
    MatchLineSteps(line, l.size, t5, t6, l.name);
  }

  /** The date a successful `MatchDate` read, and the whitespace before it. */
  ghost function DateOf(s: string): (r: (string, DateField))
    requires MatchDate(s).Some?
    ensures IsBlank(r.0) && WellFormedDate(r.1)
    ensures s == r.0 + (DateText(r.1) + MatchDate(s).value)
  {
    var (d, rest) := NextToken(s).value;
    var g := GapOf(s);
    if IsIsoDate(d) then (g, IsoDate(d))
    else
      var (day, rest2) := NextToken(rest).value;
      var g2 := GapOf(rest);
      Associative(d, g2 + day, rest2);
      Associative(g2, day, rest2);
      (g, MonthDay(d, g2, day))
  }

  /** The whitespace before the name, and the name, that a successful
      `NameTail` read. */
  lemma NameTailParts(s: string)
    requires NameTail(s).Some?
    ensures var name := NameTail(s).value;
      IsBlank(s[..|s| - |name|]) && IsNameText(name) && s == s[..|s| - |name|] + name
  {
    var n := SpaceLength(s);
    if n < |s| {
      assert NameTail(s).value == s[n..];
      assert s[..n] + s[n..] == s;
    } else {
      assert NameTail(s).value == s[n - 1..];
      assert s[..n - 1] + s[n - 1..] == s;
    }
  }

  /** The whitespace and fields before the date. */
  datatype CountFields = CountFields(
    g1: string, links: string, g2: string, owner: string, g3: string, group: string,
    g4: string, size: string)

  /** The fields a successful `MatchCounts` read, with the whitespace
      before each. */
  ghost function CountsOf(s: string): (c: CountFields)
    requires MatchCounts(s).Some?
    ensures IsBlank(c.g1) && IsToken(c.links) && AllDigits(c.links) && IsBlank(c.g2) && IsToken(c.owner)
    ensures IsBlank(c.g3) && IsToken(c.group) && IsBlank(c.g4) && IsToken(c.size) && AllDigits(c.size)
    ensures c.size == MatchCounts(s).value.0
    ensures s == c.g1 + (c.links + (c.g2 + (c.owner + (c.g3 + (c.group + (c.g4 + (c.size
                 + MatchCounts(s).value.1)))))))
  {
    var (links, s2) := NextToken(s).value;
    var (owner, s3) := NextToken(s2).value;
    var (group, s4) := NextToken(s3).value;
    CountFields(GapOf(s), links, GapOf(s2), owner, GapOf(s3), group, GapOf(s4), NextToken(s4).value.0)
  }

  /** The whitespace before the time, the time, the whitespace before the
      name, and the name that a successful `MatchTimeAndName` read. */
  ghost function StampOf(s: string): (r: (string, string, string))
    requires MatchTimeAndName(s).Some?
    ensures IsBlank(r.0) && IsToken(r.1) && IsTimeOrYear(r.1) && IsBlank(r.2)
    ensures IsNameText(MatchTimeAndName(s).value)
    ensures s == r.0 + (r.1 + (r.2 + MatchTimeAndName(s).value))
  {
    var (time, s7) := NextToken(s).value;
    var name := NameTail(s7).value;
    NameTailParts(s7);
    (GapOf(s), time, s7[..|s7| - |name|])
  }

  /** The three stages of a successful `MatchLine`. */
  lemma MatchLineParts(line: string)
    requires MatchLine(line).Some?
    ensures |line| >= 10 && IsPermField(line[..10]) && MatchCounts(line[10..]).Some?
    ensures var (size, s5) := MatchCounts(line[10..]).value;
      MatchDate(s5).Some? && MatchTimeAndName(MatchDate(s5).value).Some?
      && MatchLine(line) == Some(LsMatch(line[..10], DigitsValue(size), MatchTimeAndName(MatchDate(s5).value).value))
  {
  }

  /** The converse of LayoutMatches: a line the pattern accepts is the text
      of a well-formed layout, whose size token gives the size and whose
      tail after the time is the name. */
  ghost function LayoutOf(line: string): (l: LsLayout)
    requires MatchLine(line).Some?
    ensures WellFormedLayout(l) && LayoutText(l) == line
    ensures MatchLine(line) == Some(LsMatch(l.perm, DigitsValue(l.size), l.name))
  {
    MatchLineParts(line);
    var s0 := line[10..];
    var s5 := MatchCounts(s0).value.1;
    var c := CountsOf(s0);
    var d := DateOf(s5);
    var t6 := MatchDate(s5).value;
    var st := StampOf(t6);
    var name := MatchTimeAndName(t6).value;
    var l := LsLayout(line[..10], c.g1, c.links, c.g2, c.owner, c.g3, c.group, c.g4, c.size,
                      d.0, d.1, st.0, st.1, st.2, name);
    LayoutOfText(line, l, s0, s5, t6);
    l
  }

  lemma LayoutOfText(line: string, l: LsLayout, s0: string, s5: string, t6: string)
    requires |line| >= 10 && l.perm == line[..10] && s0 == line[10..]
    requires s0 == l.g1 + (l.links + (l.g2 + (l.owner + (l.g3 + (l.group + (l.g4 + (l.size + s5)))))))
    requires s5 == l.g5 + (DateText(l.date) + t6)
    requires t6 == l.g6 + (l.time + (l.g7 + l.name))
    ensures LayoutText(l) == line
  {
    assert line == line[..10] + line[10..];
  }

  /** A set-gid directory (`drwxrws---`) does not match the pattern, so the
      line is skipped. */
  lemma SetGidLineSkipped()
    ensures LineEntry("drwxrws---  2 u0_a286" + "  media_rw  3452" + " 2024-08-01 15:15 Alarms", "/sdcard/") == None
  {
    var line := "drwxrws---  2 u0_a286" + "  media_rw  3452" + " 2024-08-01 15:15 Alarms";
    StripNoOp(line);
    assert line[..5] != "total" by {
      assert line[..5][0] == 'd';
    }
    assert !IsPermChar(line[..10][6]);
  }

  /** Any permission field holding a set-uid, set-gid or sticky marker makes
      the line not match. */
  lemma SpecialBitsRejected(line: string, i: nat)
    requires i < 10 <= |line|
    requires line[i] in {'s', 'S', 't', 'T'}
    ensures MatchLine(line) == None
  {
    assert !IsPermChar(line[..10][i]);
  }
}
