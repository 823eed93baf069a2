/**
 * The reading app's story list: the preview line shown in the table of
 * contents, the title of an uploaded file, the upload that ignores a file
 * already on the shelf, deletion, and the reading-time estimate.
 */
module StoryShelf {
  import opened Text
  import opened Lists
  import opened Wrappers

  datatype Story = Story(id: string, title: string, content: string, fileName: string, uploadDate: int)

  const PreviewLimit: nat := 150
  const NoPreview: string := "No preview available."

  /** A line can open the preview when its trimmed form is neither empty nor a heading. */
  predicate Qualifies(line: string)
  {
    Trim(line) != "" && !StartsWith(Trim(line), "#")
  }

  /** The first qualifying line from position `from` on. */
  function FirstQualifying(lines: seq<string>, from: nat := 0): (r: Option<nat>)
    requires from <= |lines|
    ensures r.Some? ==> from <= r.value < |lines| && Qualifies(lines[r.value])
    ensures r.Some? ==> forall j :: from <= j < r.value ==> !Qualifies(lines[j])
    ensures r.None? ==> forall j :: from <= j < |lines| ==> !Qualifies(lines[j])
    decreases |lines| - from
  {
    if from == |lines| then None
    else if Qualifies(lines[from]) then Some(from)
    else FirstQualifying(lines, from + 1)
  }

  /** A long preview is cut to its first 150 characters followed by "...". */
  function Shorten(t: string): (r: string)
    ensures |t| <= PreviewLimit ==> r == t
    ensures |t| > PreviewLimit ==> |r| == PreviewLimit + 3 && r[..PreviewLimit] == t[..PreviewLimit] && r[PreviewLimit..] == "..."
  {
    if |t| > PreviewLimit then t[..PreviewLimit] + "..." else t
  }

  /** Only one line can be the first qualifying line, and there is none
      exactly when no line qualifies. */
  lemma FirstQualifyingIsUnique(lines: seq<string>)
    ensures forall k :: 0 <= k < |lines| && Qualifies(lines[k]) && (forall j :: 0 <= j < k ==> !Qualifies(lines[j])) ==>
      FirstQualifying(lines) == Some(k)
    ensures FirstQualifying(lines).None? <==> forall j :: 0 <= j < |lines| ==> !Qualifies(lines[j])
  {
  }

  /** The preview chosen from the content's lines: the first qualifying line,
      trimmed and shortened, or the fixed text when no line qualifies. */
  function PreviewOfLines(lines: seq<string>): (p: string)
    ensures (forall j :: 0 <= j < |lines| ==> !Qualifies(lines[j])) ==> p == NoPreview
    ensures forall k :: 0 <= k < |lines| && Qualifies(lines[k]) && (forall j :: 0 <= j < k ==> !Qualifies(lines[j])) ==>
      p == Shorten(Trim(lines[k]))
  {
    FirstQualifyingIsUnique(lines);
    match FirstQualifying(lines)
    case None => NoPreview
    case Some(k) => Shorten(Trim(lines[k]))
  }

  /** `getStoryPreview`: the preview of the content's '\n'-separated lines. */
  function Preview(content: string): (p: string)
    ensures |p| <= PreviewLimit + 3
  {
    PreviewOfLines(Split(content, '\n'))
  }

  /** A preview taken from a line is a prefix of that trimmed line. */
  lemma PreviewIsPrefix(lines: seq<string>, k: nat)
    requires k < |lines| && Qualifies(lines[k]) && forall j :: 0 <= j < k ==> !Qualifies(lines[j])
    ensures var t := Trim(lines[k]); var n := if |t| < PreviewLimit then |t| else PreviewLimit;
      var p := PreviewOfLines(lines); n <= |p| && p[..n] == t[..n]
  {
    FirstQualifyingIsUnique(lines);
    assert PreviewOfLines(lines) == Shorten(Trim(lines[k]));
  }

  /** The title of an uploaded file: its first line without a leading "# ",
      or else the file name with its first ".md" removed. */
  function UploadTitle(text: string, fileName: string): (title: string)
    ensures var first := Split(text, '\n')[0];
      StartsWith(first, "# ") ==> "# " + title == first
    ensures !StartsWith(Split(text, '\n')[0], "# ") ==> title == ReplaceFirst(fileName, ".md", "")
  {
    var first := Split(text, '\n')[0];
    if StartsWith(first, "# ") then
      ReplacePrefix(first, "# ");
      ReplaceFirst(first, "# ", "")
    else ReplaceFirst(fileName, ".md", "")
  }

  /** A file whose first line is a "# " heading is titled by that heading. */
  lemma {:induction false} UploadTitleFromHeading(title: string, rest: string, fileName: string)
    requires Excludes(title, '\n')
    ensures UploadTitle("# " + title + "\n" + rest, fileName) == title
  {
    var head := "# " + title;
    assert Excludes(head, '\n');
    SplitWord(head, '\n', "\n" + rest);
    assert head + ("\n" + rest) == "# " + title + "\n" + rest;
    var t := "\n" + rest;
    assert t[0] == '\n' && t[1..] == rest;
    assert Split(t, '\n')[0] == "";
    assert head + "" == head;
    assert head[..2] == "# ";
  }

  /** A file without a heading line is titled by its name less ".md". */
  lemma UploadTitleFromName(text: string, name: string)
    requires !StartsWith(Split(text, '\n')[0], "# ")
    requires forall j :: 0 <= j <= |name| ==> !OccursAt(name, ".md", j)
    ensures UploadTitle(text, name + ".md") == name
  {
    ReplaceAppendedSuffix(name, ".md");
  }

  predicate HasFile(stories: seq<Story>, fileName: string)
  {
    exists k :: 0 <= k < |stories| && stories[k].fileName == fileName
  }

  predicate UniqueFileNames(stories: seq<Story>)
  {
    forall i, j :: 0 <= i < j < |stories| ==> stories[i].fileName != stories[j].fileName
  }

  /** The list update of an upload: unchanged when the file name is already on the shelf, else appended. */
  function AddUpload(prev: seq<Story>, story: Story): (r: seq<Story>)
    ensures HasFile(prev, story.fileName) ==> r == prev
    ensures !HasFile(prev, story.fileName) ==> r == prev + [story]
  {
    if HasFile(prev, story.fileName) then prev else prev + [story]
  }

  /** Uploading keeps the file names on the shelf distinct, the file is on the
      shelf afterwards, and uploading the same file again changes nothing. */
  lemma {:induction false} AddUploadKeepsNamesUnique(prev: seq<Story>, story: Story)
    requires UniqueFileNames(prev)
    ensures UniqueFileNames(AddUpload(prev, story))
    ensures HasFile(AddUpload(prev, story), story.fileName)
    ensures AddUpload(AddUpload(prev, story), story) == AddUpload(prev, story)
  {
    var r := AddUpload(prev, story);
    if !HasFile(prev, story.fileName) {
      assert r[|prev|] == story;
      forall i, j | 0 <= i < j < |r| ensures r[i].fileName != r[j].fileName {
        if j == |prev| {
          assert r[i] == prev[i];
        } else {
          assert r[i] == prev[i] && r[j] == prev[j];
        }
      }
    }
  }

  /** The test `stories.filter` applies on deletion: the story carries another id. */
  function OtherId(id: string): Story -> bool
  {
    (s: Story) => s.id != id
  }

  /** The stories left after deleting `id`: the others, in their order on the shelf. */
  function Without(stories: seq<Story>, id: string): (r: seq<Story>)
    ensures |r| <= |stories|
    ensures forall k :: 0 <= k < |r| ==> r[k].id != id && r[k] in stories
  {
    FilterWithin(stories, OtherId(id));
    Filter(stories, OtherId(id))
  }

  /** The test for the stories that carry the deleted id. */
  function HasId(id: string): Story -> bool
  {
    (s: Story) => s.id == id
  }

  /** The stories that carry the deleted id. */
  function WithId(stories: seq<Story>, id: string): (r: seq<Story>)
    ensures forall k :: 0 <= k < |r| ==> r[k].id == id
  {
    Filter(stories, HasId(id))
  }

  /** Deletion keeps the order of the shelf: cutting the shelf anywhere, the kept stories of the
      front come before the kept stories of the back, and one story is kept exactly when its id
      differs. */
  lemma WithoutKeepsOrder(front: seq<Story>, s: Story, back: seq<Story>, id: string)
    ensures Without(front + [s] + back, id)
      == Without(front, id) + (if s.id != id then [s] else []) + Without(back, id)
  {
    FilterAppend(front + [s], back, OtherId(id));
    FilterSnoc(front, s, OtherId(id));
  }

  /** Deletion splits the list: what it keeps and what carried the id make up the old list. */
  lemma WithoutSplits(stories: seq<Story>, id: string)
    ensures multiset(Without(stories, id)) + multiset(WithId(stories, id)) == multiset(stories)
  {
    forall k | 0 <= k < |stories| ensures ExactlyOneOf(OtherId(id), HasId(id), stories[k]) {
    }
    FilterSplit(stories, OtherId(id), HasId(id));
  }

  /** Deleting an id no story carries changes nothing. */
  lemma {:induction false} WithoutAbsent(stories: seq<Story>, id: string)
    requires forall k :: 0 <= k < |stories| ==> stories[k].id != id
    ensures Without(stories, id) == stories
  {
    if |stories| > 0 {
      WithoutAbsent(stories[1..], id);
      assert stories == [stories[0]] + stories[1..];
    }
  }

  /** Every story with another id survives the deletion. */
  lemma {:induction false} WithoutKeepsOthers(stories: seq<Story>, id: string, s: Story)
    requires s in stories && s.id != id
    ensures s in Without(stories, id)
  {
    assert stories == [stories[0]] + stories[1..];
    if stories[0] != s {
      WithoutKeepsOthers(stories[1..], id, s);
    }
  }

  /** `Math.ceil(content.split(' ').length / 200)`. */
  function ReadingMinutes(content: string): (m: nat)
    ensures var pieces := Count(content, ' ') + 1;
      m * 200 >= pieces && (m - 1) * 200 < pieces
  {
    SplitPieces(content, ' ');
    (|Split(content, ' ')| + 199) / 200
  }

  /** The app's story list and the story open in the reader. */
  class Shelf {
    var stories: seq<Story>
    var activeStoryId: Option<string>

    constructor ()
      ensures stories == [] && activeStoryId == None
    {
      stories := [];
      activeStoryId := None;
    }

    /** `handleFileUpload` for one file read as `text`; `id` and `now` are the random id and clock reading. */
    method Upload(text: string, fileName: string, id: string, now: int)
      modifies this
      ensures stories == AddUpload(old(stories), Story(id, UploadTitle(text, fileName), text, fileName, now))
      ensures activeStoryId == old(activeStoryId)
      ensures UniqueFileNames(old(stories)) ==> UniqueFileNames(stories)
    {
      var story := Story(id, UploadTitle(text, fileName), text, fileName, now);
      if UniqueFileNames(stories) {
        AddUploadKeepsNamesUnique(stories, story);
      }
      stories := AddUpload(stories, story);
    }

    /** `deleteStory`: drops the stories with `id`; the reader closes only if it showed that story. */
    method DeleteStory(id: string)
      modifies this
      ensures stories == Without(old(stories), id)
      ensures old(activeStoryId) == Some(id) ==> activeStoryId == None
      ensures old(activeStoryId) != Some(id) ==> activeStoryId == old(activeStoryId)
    {
      stories := Without(stories, id);
      if activeStoryId == Some(id) {
        activeStoryId := None;
      }
    }
  }
}
