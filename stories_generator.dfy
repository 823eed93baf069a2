/**
 * The build script that turns the Markdown files of the text folder into
 * the story catalogue: each file is parsed into a record, records of files
 * already in the previous catalogue take over its hand-edited fields, new
 * files are numbered per language in upload-date order, and the catalogue
 * lists Chinese stories first, each language by descending order.
 */
module StoriesGenerator {
  import opened Text
  import opened Lists
  import opened Sorting
  import opened Wrappers

  datatype StoryData = StoryData(
    id: string, title: string, tags: string, summary: string, version: string,
    language: string, isChinese: bool, fileName: string, wordCount: nat,
    order: int, uploadDate: string)

  /** The hand-edited fields of one entry of the previous catalogue; `None` where the entry lacks the field. */
  datatype Edits = Edits(
    tags: Option<string>, title: Option<string>, summary: Option<string>,
    version: Option<string>, order: Option<int>, uploadDate: Option<string>)

  /** One directory entry with its text, and the random id drawn for it. */
  datatype SourceFile = SourceFile(name: string, content: string, randomId: string)

  /** One entry recovered from the previous catalogue. */
  datatype StoredStory = StoredStory(fileName: string, edits: Edits)

  /** A character of the CJK block U+4E00..U+9FA5. */
  predicate IsHan(c: char)
  {
    '\U{4E00}' <= c <= '\U{9FA5}'
  }

  predicate HasChinese(name: string)
  {
    exists i :: 0 <= i < |name| && IsHan(name[i])
  }

  /** The one file with its own upload date. */
  const DatedFile: string := "\U{7834}\U{6E83}\U{70B9}.md"

  predicate IsDigit(c: char)
  {
    '0' <= c <= '9'
  }

  /** "YYYY" or "YYYY-MM-DD". */
  predicate IsDateString(s: string)
  {
    (|s| == 4 || (|s| == 10 && s[4] == '-' && s[7] == '-' && IsDigit(s[5]) && IsDigit(s[6]) && IsDigit(s[8]) && IsDigit(s[9])))
    && IsDigit(s[0]) && IsDigit(s[1]) && IsDigit(s[2]) && IsDigit(s[3])
  }

  /** `getUploadDate`: a date string, the full date exactly for the dated file. */
  function GetUploadDate(fileName: string): (d: string)
    ensures IsDateString(d)
    ensures d == "2026-02-14" <==> fileName == DatedFile
    ensures fileName != DatedFile ==> d == "2025"
  {
    if fileName == DatedFile then "2026-02-14" else "2025"
  }

  /** `parseMarkdownFile` together with the upload date and the provisional order 0. */
  function ParseMarkdownFile(f: SourceFile): (r: StoryData)
    ensures r.fileName == f.name && r.id == f.randomId
    ensures r.isChinese == HasChinese(f.name) && r.language == (if r.isChinese then "CN" else "EN")
    ensures r.title == ReplaceFirst(f.name, ".md", "")
    ensures r.tags == "" && r.summary == "" && r.version == "none"
    ensures r.order == 0 && r.uploadDate == GetUploadDate(f.name)
    ensures r.isChinese ==> r.wordCount == |Trim(f.content)|
    ensures !r.isChinese ==> r.wordCount == CountWords(Trim(f.content))
    ensures r.wordCount == 0 <==> AllSpace(f.content)
  {
    var content := Trim(f.content);
    var chinese := HasChinese(f.name);
    TrimEmpty(f.content);
    TrimBlank(f.content);
    NoWordsIffBlank(content);
    StoryData(
      f.randomId, ReplaceFirst(f.name, ".md", ""), "", "", "none",
      if chinese then "CN" else "EN", chinese, f.name,
      if chinese then |content| else CountWords(content),
      0, GetUploadDate(f.name))
  }

  /** A file named `n` + ".md", with no ".md" inside `n`, is titled `n` by default. */
  lemma DefaultTitle(n: string, content: string, id: string)
    requires forall j :: 0 <= j <= |n| ==> !OccursAt(n, ".md", j)
    ensures ParseMarkdownFile(SourceFile(n + ".md", content, id)).title == n
  {
    ReplaceAppendedSuffix(n, ".md");
  }

  /** Each edited field replaces the parsed one; id, language, file name and word count stay. */
  function Overlay(s: StoryData, e: Edits): (r: StoryData)
    ensures r.id == s.id && r.language == s.language && r.isChinese == s.isChinese
    ensures r.fileName == s.fileName && r.wordCount == s.wordCount
    ensures r.tags == (if e.tags.Some? then e.tags.value else s.tags)
    ensures r.title == (if e.title.Some? then e.title.value else s.title)
    ensures r.summary == (if e.summary.Some? then e.summary.value else s.summary)
    ensures r.version == (if e.version.Some? then e.version.value else s.version)
    ensures r.order == (if e.order.Some? then e.order.value else s.order)
    ensures r.uploadDate == (if e.uploadDate.Some? then e.uploadDate.value else s.uploadDate)
  {
    s.(tags := if e.tags.Some? then e.tags.value else s.tags,
       title := if e.title.Some? then e.title.value else s.title,
       summary := if e.summary.Some? then e.summary.value else s.summary,
       version := if e.version.Some? then e.version.value else s.version,
       order := if e.order.Some? then e.order.value else s.order,
       uploadDate := if e.uploadDate.Some? then e.uploadDate.value else s.uploadDate)
  }

  /** An entry without edits changes nothing, and applying the same edits twice is applying them once. */
  lemma OverlayLaws(s: StoryData, e: Edits)
    ensures Overlay(s, Edits(None, None, None, None, None, None)) == s
    ensures Overlay(Overlay(s, e), e) == Overlay(s, e)
  {
  }

  predicate IsMarkdown(f: SourceFile)
  {
    EndsWith(f.name, ".md")
  }

  function Parsed(files: seq<SourceFile>): (r: seq<StoryData>)
    ensures |r| == |files| && forall k :: 0 <= k < |r| ==> r[k] == ParseMarkdownFile(files[k])
  {
    Map(files, ParseMarkdownFile)
  }

  /** One record after the merge loop: edited when the previous catalogue has its file. */
  function MergeOne(s: StoryData, existing: map<string, Edits>): (r: StoryData)
    ensures r.fileName == s.fileName && r.isChinese == s.isChinese
    ensures s.fileName !in existing ==> r == s
    ensures s.fileName in existing ==> r == Overlay(s, existing[s.fileName])
  {
    if s.fileName in existing then Overlay(s, existing[s.fileName]) else s
  }

  function MergeWith(existing: map<string, Edits>): StoryData -> StoryData
  {
    (s: StoryData) => MergeOne(s, existing)
  }

  /** The previous catalogue has the record's file. */
  function Known(existing: map<string, Edits>): StoryData -> bool
  {
    (s: StoryData) => s.fileName in existing
  }

  /** A new file of the given language. */
  function IsNew(existing: map<string, Edits>, chinese: bool): StoryData -> bool
  {
    (s: StoryData) => s.fileName !in existing && s.isChinese == chinese
  }

  function NameOf(s: StoryData): string
  {
    s.fileName
  }

  function SourceName(f: SourceFile): string
  {
    f.name
  }

  /** The upload-date comparator `a.uploadDate.localeCompare(b.uploadDate)`. */
  predicate ByDate(a: StoryData, b: StoryData)
  {
    LexLe(a.uploadDate, b.uploadDate)
  }

  /** The catalogue comparator: Chinese before English, then larger order first. */
  predicate ChineseFirstByOrder(a: StoryData, b: StoryData)
  {
    if a.isChinese != b.isChinese then a.isChinese else a.order >= b.order
  }

  lemma ByDatePreorder()
    ensures TotalPreorder(ByDate)
  {
    forall a: StoryData, b: StoryData ensures ByDate(a, b) || ByDate(b, a) {
      LexLeTotal(a.uploadDate, b.uploadDate);
    }
    forall a: StoryData, b: StoryData, c: StoryData | ByDate(a, b) && ByDate(b, c) ensures ByDate(a, c) {
      LexLeTransitive(a.uploadDate, b.uploadDate, c.uploadDate);
    }
  }

  lemma ChineseFirstByOrderPreorder()
    ensures TotalPreorder(ChineseFirstByOrder)
  {
  }

  /** The `forEach((story, index) => story.order = index + 1)` numbering. */
  function Numbered(s: seq<StoryData>): (r: seq<StoryData>)
    ensures |r| == |s| && forall k :: 0 <= k < |r| ==> r[k] == s[k].(order := k + 1)
  {
    seq(|s|, k requires 0 <= k < |s| => s[k].(order := k + 1))
  }

  /** Sorting the new files of one language by date keeps them new and of that language. */
  lemma SortedNewFiles(stories: seq<StoryData>, existing: map<string, Edits>, chinese: bool)
    ensures var sorted := SortBy(Filter(stories, IsNew(existing, chinese)), ByDate);
      Sorted(sorted, ByDate) &&
      forall k :: 0 <= k < |sorted| ==> sorted[k].isChinese == chinese && sorted[k].fileName !in existing
  {
    var f := Filter(stories, IsNew(existing, chinese));
    var sorted := SortBy(f, ByDate);
    ByDatePreorder();
    SortBySorted(f, ByDate);
    forall k | 0 <= k < |sorted| ensures sorted[k].isChinese == chinese && sorted[k].fileName !in existing {
      assert sorted[k] in multiset(f);
      var m :| 0 <= m < |f| && f[m] == sorted[k];
      assert IsNew(existing, chinese)(f[m]);
    }
  }

  /** The new files of one language, sorted by upload date and numbered 1, 2, ... in that order. */
  function NewEntries(stories: seq<StoryData>, existing: map<string, Edits>, chinese: bool): (r: seq<StoryData>)
    ensures |r| == |Filter(stories, IsNew(existing, chinese))|
    ensures forall k :: 0 <= k < |r| ==> r[k].order == k + 1 && r[k].isChinese == chinese && r[k].fileName !in existing
    ensures forall i, j :: 0 <= i < j < |r| ==> LexLe(r[i].uploadDate, r[j].uploadDate)
  {
    var sorted := SortBy(Filter(stories, IsNew(existing, chinese)), ByDate);
    SortedNewFiles(stories, existing, chinese);
    Numbered(sorted)
  }

  /** The catalogue built from the parsed records and the previous catalogue's edits. */
  function Catalogue(stories: seq<StoryData>, existing: map<string, Edits>): seq<StoryData>
  {
    SortBy(Filter(Map(stories, MergeWith(existing)), Known(existing))
             + NewEntries(stories, existing, true) + NewEntries(stories, existing, false),
           ChineseFirstByOrder)
  }

  /** The catalogue the script writes for a directory and the previous catalogue's edits. */
  function Generated(dir: seq<SourceFile>, existing: map<string, Edits>): seq<StoryData>
  {
    Catalogue(Parsed(Filter(dir, IsMarkdown)), existing)
  }

  /** The catalogue lists Chinese stories before English ones, each language by descending order. */
  lemma CatalogueOrdered(stories: seq<StoryData>, existing: map<string, Edits>)
    ensures var out := Catalogue(stories, existing);
      forall i, j :: 0 <= i < j < |out| ==>
        (out[i].isChinese || !out[j].isChinese) &&
        (out[i].isChinese == out[j].isChinese ==> out[i].order >= out[j].order)
  {
    var all := Filter(Map(stories, MergeWith(existing)), Known(existing))
      + NewEntries(stories, existing, true) + NewEntries(stories, existing, false);
    ChineseFirstByOrderPreorder();
    SortBySorted(all, ChineseFirstByOrder);
  }

  /** Numbering and sorting the new files keeps their file names. */
  lemma NewEntriesNames(stories: seq<StoryData>, existing: map<string, Edits>, chinese: bool)
    ensures multiset(Map(NewEntries(stories, existing, chinese), NameOf))
      == multiset(Map(Filter(stories, IsNew(existing, chinese)), NameOf))
  {
    var f := Filter(stories, IsNew(existing, chinese));
    var sorted := SortBy(f, ByDate);
    assert Map(Numbered(sorted), NameOf) == Map(sorted, NameOf);
    MapPermutation(sorted, f, NameOf);
  }

  /** The records kept from the merge carry the names of the known files, in order. */
  lemma KeptNames(stories: seq<StoryData>, existing: map<string, Edits>)
    ensures Map(Filter(Map(stories, MergeWith(existing)), Known(existing)), NameOf)
      == Map(Filter(stories, Known(existing)), NameOf)
  {
    FilterMap(stories, MergeWith(existing), Known(existing));
    MapMap(Filter(stories, Known(existing)), MergeWith(existing), NameOf);
  }

  /** Every record's file appears in the catalogue exactly as often as among the records. */
  lemma CatalogueFiles(stories: seq<StoryData>, existing: map<string, Edits>)
    ensures multiset(Map(Catalogue(stories, existing), NameOf)) == multiset(Map(stories, NameOf))
  {
    var kept := Filter(Map(stories, MergeWith(existing)), Known(existing));
    var cn := NewEntries(stories, existing, true);
    var en := NewEntries(stories, existing, false);
    assert multiset(Map(Catalogue(stories, existing), NameOf)) == multiset(Map(kept, NameOf)) + multiset(Map(cn, NameOf)) + multiset(Map(en, NameOf)) by {
      MapPermutation(SortBy(kept + cn + en, ChineseFirstByOrder), kept + cn + en, NameOf);
      MapAppend(kept + cn, en, NameOf);
      MapAppend(kept, cn, NameOf);
    }
    KeptNames(stories, existing);
    NewEntriesNames(stories, existing, true);
    NewEntriesNames(stories, existing, false);
    var known, newCn, newEn := Filter(stories, Known(existing)), Filter(stories, IsNew(existing, true)), Filter(stories, IsNew(existing, false));
    assert multiset(Map(known, NameOf)) + multiset(Map(newCn, NameOf)) + multiset(Map(newEn, NameOf)) == multiset(Map(stories, NameOf)) by {
      forall k | 0 <= k < |stories|
        ensures ExactlyOne(Known(existing), IsNew(existing, true), IsNew(existing, false), stories[k])
      {
      }
      FilterPartition(stories, Known(existing), IsNew(existing, true), IsNew(existing, false));
      MapPermutation(known + newCn + newEn, stories, NameOf);
      MapAppend(known + newCn, newEn, NameOf);
      MapAppend(known, newCn, NameOf);
    }
  }

  /** Every `.md` file of the directory appears in the catalogue exactly as often as in the directory. */
  lemma GeneratedFiles(dir: seq<SourceFile>, existing: map<string, Edits>)
    ensures multiset(Map(Generated(dir, existing), NameOf)) == multiset(Map(Filter(dir, IsMarkdown), SourceName))
  {
    var files := Filter(dir, IsMarkdown);
    CatalogueFiles(Parsed(files), existing);
    assert Map(Parsed(files), NameOf) == Map(files, SourceName);
  }

  lemma KeptEntry(stories: seq<StoryData>, existing: map<string, Edits>, e: StoryData)
    requires e in Filter(Map(stories, MergeWith(existing)), Known(existing))
    ensures e.fileName in existing
    ensures exists p :: p in stories && p.fileName == e.fileName && e == Overlay(p, existing[p.fileName])
  {
    var merged := Map(stories, MergeWith(existing));
    FilterMember(merged, Known(existing), e);
    var k :| 0 <= k < |merged| && merged[k] == e;
    assert stories[k].fileName == e.fileName;
  }

  lemma NewEntry(stories: seq<StoryData>, existing: map<string, Edits>, chinese: bool, e: StoryData)
    requires e in NewEntries(stories, existing, chinese)
    ensures e.fileName !in existing && e.isChinese == chinese
    ensures 1 <= e.order <= |Filter(stories, IsNew(existing, chinese))|
    ensures exists p :: p in stories && e == p.(order := e.order)
  {
    var r := NewEntries(stories, existing, chinese);
    var k :| 0 <= k < |r| && r[k] == e;
    var f := Filter(stories, IsNew(existing, chinese));
    var sorted := SortBy(f, ByDate);
    assert r[k] == sorted[k].(order := k + 1);
    assert sorted[k] in multiset(f);
    FilterWithin(stories, IsNew(existing, chinese));
    assert sorted[k] in stories;
  }

  /** A catalogue entry of a known file is its record with the stored edits applied;
      a new file's entry is numbered within its language's new files. */
  lemma CatalogueEntries(stories: seq<StoryData>, existing: map<string, Edits>, e: StoryData)
    requires e in Catalogue(stories, existing)
    ensures e.fileName in existing ==> exists p :: p in stories && p.fileName == e.fileName && e == Overlay(p, existing[p.fileName])
    ensures e.fileName !in existing ==> 1 <= e.order <= |Filter(stories, IsNew(existing, e.isChinese))|
  {
    var kept := Filter(Map(stories, MergeWith(existing)), Known(existing));
    var cn := NewEntries(stories, existing, true);
    var en := NewEntries(stories, existing, false);
    assert e in kept + cn + en by {
      assert e in multiset(Catalogue(stories, existing));
    }
    if e in kept {
      KeptEntry(stories, existing, e);
    } else if e in cn {
      NewEntry(stories, existing, true, e);
    } else {
      NewEntry(stories, existing, false, e);
    }
  }

  // ---------------------------------------------------------------------
  // the script

  /** The previous catalogue's entries keyed by file name; a later entry for the same file wins. */
  method CollectEdits(stored: seq<StoredStory>) returns (existing: map<string, Edits>)
    ensures forall name :: name in existing <==> exists k :: 0 <= k < |stored| && stored[k].fileName == name
    ensures forall k :: 0 <= k < |stored| && (forall l :: k < l < |stored| ==> stored[l].fileName != stored[k].fileName) ==>
      existing[stored[k].fileName] == stored[k].edits
  {
    existing := map[];
    var i := 0;
    while i < |stored|
      invariant 0 <= i <= |stored|
      invariant forall name :: name in existing <==> exists k :: 0 <= k < i && stored[k].fileName == name
      invariant forall k :: 0 <= k < i && (forall l :: k < l < i ==> stored[l].fileName != stored[k].fileName) ==>
        existing[stored[k].fileName] == stored[k].edits
    {
      existing := existing[stored[i].fileName := stored[i].edits];
      i := i + 1;
    }
  }

  /** Numbers the records 1, 2, ... in place. */
  method AssignOrders(s: seq<StoryData>) returns (r: seq<StoryData>)
    ensures r == Numbered(s)
  {
    r := s;
    var index := 0;
    while index < |r|
      invariant 0 <= index <= |r| == |s|
      invariant forall k :: 0 <= k < index ==> r[k] == s[k].(order := k + 1)
      invariant forall k :: index <= k < |r| ==> r[k] == s[k]
    {
      r := r[index := r[index].(order := index + 1)];
      index := index + 1;
    }
  }

  /** The merge loop: records of known files take over their edits in place,
      records of new files are collected per language. */
  method MergeEdits(parsed: seq<StoryData>, existing: map<string, Edits>)
    returns (stories: seq<StoryData>, chineseStories: seq<StoryData>, englishStories: seq<StoryData>)
    ensures stories == Map(parsed, MergeWith(existing))
    ensures chineseStories == Filter(parsed, IsNew(existing, true))
    ensures englishStories == Filter(parsed, IsNew(existing, false))
  {
    stories := parsed;
    chineseStories := [];
    englishStories := [];
    var i := 0;
    while i < |stories|
      invariant 0 <= i <= |stories| == |parsed|
      invariant forall k :: 0 <= k < i ==> stories[k] == MergeOne(parsed[k], existing)
      invariant forall k :: i <= k < |stories| ==> stories[k] == parsed[k]
      invariant chineseStories == Filter(parsed[..i], IsNew(existing, true))
      invariant englishStories == Filter(parsed[..i], IsNew(existing, false))
    {
      var story := stories[i];
      assert parsed[..i + 1] == parsed[..i] + [story];
      FilterSnoc(parsed[..i], story, IsNew(existing, true));
      FilterSnoc(parsed[..i], story, IsNew(existing, false));
      if story.fileName in existing {
        stories := stories[i := Overlay(story, existing[story.fileName])];
      } else if story.isChinese {
        chineseStories := chineseStories + [story];
      } else {
        englishStories := englishStories + [story];
      }
      i := i + 1;
    }
    assert parsed[..i] == parsed;
  }

  /** `generateStoriesData`: the edits of the previous catalogue and the catalogue to write. */
  method GenerateStoriesData(dir: seq<SourceFile>, stored: seq<StoredStory>)
    returns (existing: map<string, Edits>, allStories: seq<StoryData>)
    ensures forall name :: name in existing <==> exists k :: 0 <= k < |stored| && stored[k].fileName == name
    ensures allStories == Generated(dir, existing)
  {
    existing := CollectEdits(stored);
    var files := Filter(dir, IsMarkdown);
    var parsed := Parsed(files);
    var stories, chineseStories, englishStories := MergeEdits(parsed, existing);
    chineseStories := SortBy(chineseStories, ByDate);
    chineseStories := AssignOrders(chineseStories);
    englishStories := SortBy(englishStories, ByDate);
    englishStories := AssignOrders(englishStories);
    assert chineseStories == NewEntries(parsed, existing, true);
    assert englishStories == NewEntries(parsed, existing, false);
    allStories := Filter(stories, Known(existing)) + chineseStories + englishStories;
    allStories := SortBy(allStories, ChineseFirstByOrder);
  }
}
