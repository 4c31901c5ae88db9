/**
 * `analyzeLessonContent` and `analyzeCourseStructure`: every readable HTML file
 * that passes the Rise gate becomes a lesson carrying everything the
 * extractors find in it, and the lessons are sorted by `compareFileNames` on
 * their paths.
 */
module Course {
  import opened Options
  import opened Text
  import opened Classify
  import opened Markers
  import opened Fields
  import opened Blocks
  import opened Sanitize
  import opened Naming
  import opened Sorting

  /** Everything known about one HTML file. */
  datatype Lesson = Lesson(
    file: InputFile,
    path: string,
    fileName: string,
    isRiseContent: bool,
    title: string,
    description: string,
    blocks: seq<Block>,
    interactions: seq<Interaction>,
    assessments: seq<Assessment>,
    media: seq<MediaRef>,
    cleanContent: string,
    metadata: map<string, string>)

  /** The lesson record before any extraction: every extracted field empty. */
  function BlankLesson(ref: FileRef): Lesson {
    Lesson(ref.file, ref.path, ref.file.name, false, [], [], [], [], [], [], [], map[])
  }

  /** `analyzeLessonContent`: a page that fails the Rise gate keeps the blank
      record; one that passes gets every field extracted. */
  function AnalyzeLessonContent(content: string, ref: FileRef): (lesson: Lesson)
    ensures lesson.file == ref.file && lesson.path == ref.path && lesson.fileName == ref.file.name
    ensures lesson.isRiseContent == IsRiseContent(content)
    ensures lesson.isRiseContent <==> exists i :: 0 <= i < |RiseMarkers| && Contains(Lower(content), RiseMarkers[i])
    ensures !lesson.isRiseContent ==> lesson == BlankLesson(ref)
    ensures lesson.isRiseContent ==>
              && lesson.title == ExtractTitle(content, ref.file.name)
              && lesson.description == ExtractDescription(content)
              && lesson.blocks == ExtractContentBlocks(content)
              && lesson.interactions == ExtractInteractions(content)
              && lesson.assessments == ExtractAssessments(content)
              && lesson.media == ExtractMediaReferences(content)
              && lesson.cleanContent == CleanContentForPDF(content)
              && lesson.metadata == ExtractMetadata(content)
    ensures IsClean(lesson.description) && Normalized(lesson.cleanContent)
    ensures forall j :: 0 <= j < |lesson.blocks| ==> IsClean(lesson.blocks[j].content)
    ensures forall a, b :: 0 <= a < b < |lesson.blocks| ==> lesson.blocks[a].kind.Rank() <= lesson.blocks[b].kind.Rank()
    ensures forall j :: 0 <= j < |lesson.interactions| ==> IsClean(lesson.interactions[j].content)
    ensures forall j :: 0 <= j < |lesson.assessments| ==> IsClean(lesson.assessments[j].content)
    ensures "__proto__" !in lesson.metadata
  {
    if !IsRiseContent(content) then
      assert Normalized([]) && IsClean([]);
      BlankLesson(ref)
    else
      Lesson(ref.file, ref.path, ref.file.name, true,
             ExtractTitle(content, ref.file.name),
             ExtractDescription(content),
             ExtractContentBlocks(content),
             ExtractInteractions(content),
             ExtractAssessments(content),
             ExtractMediaReferences(content),
             CleanContentForPDF(content),
             ExtractMetadata(content))
  }

  /** What one HTML file contributes to the lesson list: nothing when it cannot
      be read or is not Rise content, else its lesson. */
  function LessonOf(ref: FileRef): seq<Lesson> {
    match ref.file.content
    case None => []
    case Some(c) => if IsRiseContent(c) then [AnalyzeLessonContent(c, ref)] else []
  }

  /** Reference definition of the lessons before sorting, in bucket order. */
  function Analyzed(refs: seq<FileRef>): seq<Lesson> {
    Collect(refs, LessonOf)
  }

  /** `l` is the analysis of the entry's readable Rise page. */
  predicate PageOf(ref: FileRef, l: Lesson) {
    ref.file.content.Some? && IsRiseContent(ref.file.content.value)
    && l == AnalyzeLessonContent(ref.file.content.value, ref)
  }

  /** The lessons are exactly the analyses of the readable Rise pages, and there
      are no more of them than HTML files. */
  lemma AnalyzedMembers(refs: seq<FileRef>, l: Lesson)
    ensures l in Analyzed(refs) <==> exists j :: 0 <= j < |refs| && PageOf(refs[j], l)
    ensures |Analyzed(refs)| <= |refs|
  {
    CollectMembers(refs, LessonOf, l);
    forall j | 0 <= j < |refs|
      ensures l in LessonOf(refs[j]) <==> PageOf(refs[j], l)
      ensures |LessonOf(refs[j])| <= 1
    {
      LessonOfPage(refs[j], l);
    }
    CollectAtMost(refs, LessonOf);
  }

  lemma LessonOfPage(ref: FileRef, l: Lesson)
    ensures l in LessonOf(ref) <==> PageOf(ref, l)
    ensures |LessonOf(ref)| <= 1
  {
  }

  /** `compareFileNames` on the lessons' paths. */
  function ComparePaths(a: Lesson, b: Lesson): int {
    CompareFileNames(a.path, b.path)
  }

  /** The number a lesson's path carries, if any. */
  function PathNumber(l: Lesson): Option<nat> {
    NumberIn(l.path)
  }

  // ---------------------------------------------------------------- the course

  /** The result of `analyzeCourseStructure`. */
  datatype Analysis = Analysis(
    totalFiles: nat,
    htmlFiles: seq<FileRef>,
    jsonFiles: seq<FileRef>,
    mediaFiles: seq<FileRef>,
    lessons: seq<Lesson>,
    mainIndex: Option<FileRef>)

  /** The analysis loop of `analyzeCourseStructure`: every HTML file in bucket
      order, skipping unreadable files and pages that fail the Rise gate. */
  method AnalyzePages(refs: seq<FileRef>) returns (lessons: seq<Lesson>)
    ensures lessons == Analyzed(refs)
  {
    lessons := [];
    var i := 0;
    while i < |refs|
      invariant 0 <= i <= |refs|
      invariant lessons == Analyzed(refs[..i])
    {
      var ref := refs[i];
      AnalyzedStep(refs, i);
      match ref.file.content {
        case None =>
        case Some(content) =>
          var lesson := AnalyzeLessonContent(content, ref);
          LessonOfReadable(ref, content);
          if lesson.isRiseContent {
            lessons := lessons + [lesson];
          }
      }
      i := i + 1;
    }
    assert refs[..i] == refs;
  }

  lemma AnalyzedStep(refs: seq<FileRef>, i: nat)
    requires i < |refs|
    ensures Analyzed(refs[..i + 1]) == Analyzed(refs[..i]) + LessonOf(refs[i])
  {
    assert refs[..i + 1][..i] == refs[..i];
  }

  /** A readable file contributes its analysis exactly when that passes the gate. */
  lemma LessonOfReadable(ref: FileRef, content: string)
    requires ref.file.content == Some(content)
    ensures var l := AnalyzeLessonContent(content, ref);
            LessonOf(ref) == if l.isRiseContent then [l] else []
  {
  }

  /** `analyzeCourseStructure` */
  method AnalyzeCourseStructure(files: seq<InputFile>) returns (a: Analysis)
    ensures a.totalFiles == |files|
    ensures a.htmlFiles == Bucket(files, Html) && a.jsonFiles == Bucket(files, Json)
    ensures a.mediaFiles == Bucket(files, Media) && a.mainIndex == LastMainIndex(files)
    ensures multiset(a.lessons) == multiset(Analyzed(a.htmlFiles))
    ensures forall i :: 0 <= i < |a.lessons| ==> a.lessons[i].isRiseContent
    ensures AllKeyed(a.lessons, PathNumber) ==> SortedByKey(a.lessons, PathNumber)
  {
    var b := ClassifyFiles(files);
    var lessons := AnalyzePages(b.htmlFiles);
    var sorted := SortBy(lessons, ComparePaths);
    if AllKeyed(sorted, PathNumber) {
      KeyedByMultiset(lessons, sorted, PathNumber);
      SortOrdersByKey(lessons, ComparePaths, PathNumber);
    }
    forall k | 0 <= k < |sorted|
      ensures sorted[k].isRiseContent
    {
      assert sorted[k] in multiset(sorted);
      assert sorted[k] in lessons;
      AnalyzedRise(b.htmlFiles, sorted[k]);
    }
    a := Analysis(b.totalFiles, b.htmlFiles, b.jsonFiles, b.mediaFiles, sorted, b.mainIndex);
  }

  /** Every analysed lesson passed the Rise gate. */
  lemma AnalyzedRise(refs: seq<FileRef>, l: Lesson)
    requires l in Analyzed(refs)
    ensures l.isRiseContent
  {
    AnalyzedMembers(refs, l);
  }
}
