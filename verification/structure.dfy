/**
 * `generatePDFStructure`: the printable guide's outline. A cover page comes
 * first, then one table-of-contents entry and one section per lesson, in
 * lesson order.
 */
module Structure {
  import opened Options
  import opened Blocks
  import opened Classify
  import opened Course

  /** The caller's options; a missing option is `None`. */
  datatype PdfOptions = PdfOptions(title: Option<string>, author: Option<string>)

  datatype TocEntry = TocEntry(title: string, page: nat, sections: seq<string>)

  datatype Reflection = Reflection(question: string, space: string)

  datatype Section = Section(
    title: string,
    description: string,
    content: string,
    interactions: seq<Interaction>,
    assessments: seq<Assessment>,
    media: seq<MediaRef>,
    reflection: Reflection)

  datatype PdfStructure = PdfStructure(
    title: string,
    author: string,
    generated: string,
    tableOfContents: seq<TocEntry>,
    sections: seq<Section>)

  const DefaultTitle: string := "Rise Course Job Aid"
  const DefaultAuthor: string := "Course Author"

  /** The note-taking prompt closing every section. */
  const ReflectionPrompt: Reflection := Reflection(
    "What are the key takeaways from this lesson?",
    "Use this area to write your notes and action items.")

  /** `option || fallback`: a missing or empty option gives the fallback. */
  function OrDefault(option: Option<string>, fallback: string): (r: string)
    ensures option.Some? && option.value != [] ==> r == option.value
    ensures option.None? || option.value == [] ==> r == fallback
  {
    match option
    case Some(v) => if v != [] then v else fallback
    case None => fallback
  }

  /** The `type` of each block, in block order. */
  function BlockTypes(blocks: seq<Block>): (names: seq<string>)
    ensures |names| == |blocks|
    ensures forall j :: 0 <= j < |blocks| ==> names[j] == blocks[j].kind.Name()
  {
    seq(|blocks|, j requires 0 <= j < |blocks| => blocks[j].kind.Name())
  }

  /** The table-of-contents entry of the lesson at `index`: the cover is page 1. */
  function TocEntryOf(lesson: Lesson, index: nat): TocEntry {
    TocEntry(lesson.title, index + 2, BlockTypes(lesson.blocks))
  }

  function SectionOf(lesson: Lesson): Section {
    Section(lesson.title, lesson.description, lesson.cleanContent,
            lesson.interactions, lesson.assessments, lesson.media, ReflectionPrompt)
  }

  /** `generatePDFStructure`; `generated` is the date text, which the source
      reads from the clock. */
  function GeneratePDFStructure(lessons: seq<Lesson>, options: PdfOptions, generated: string): (s: PdfStructure)
    ensures options.title.Some? && options.title.value != [] ==> s.title == options.title.value
    ensures options.title.None? || options.title.value == [] ==> s.title == DefaultTitle
    ensures options.author.Some? && options.author.value != [] ==> s.author == options.author.value
    ensures options.author.None? || options.author.value == [] ==> s.author == DefaultAuthor
    ensures s.title != [] && s.author != [] && s.generated == generated
    ensures |s.tableOfContents| == |lessons| && |s.sections| == |lessons|
    ensures forall i :: 0 <= i < |lessons| ==>
              s.tableOfContents[i].title == lessons[i].title && s.tableOfContents[i].page == i + 2
              && |s.tableOfContents[i].sections| == |lessons[i].blocks|
              && (forall j :: 0 <= j < |lessons[i].blocks| ==>
                    s.tableOfContents[i].sections[j] == lessons[i].blocks[j].kind.Name())
    ensures forall i :: 0 <= i < |lessons| ==>
              s.sections[i].title == lessons[i].title && s.sections[i].description == lessons[i].description
              && s.sections[i].content == lessons[i].cleanContent
              && s.sections[i].interactions == lessons[i].interactions
              && s.sections[i].assessments == lessons[i].assessments
              && s.sections[i].media == lessons[i].media
              && s.sections[i].reflection == ReflectionPrompt
  {
    PdfStructure(
      OrDefault(options.title, DefaultTitle),
      OrDefault(options.author, DefaultAuthor),
      generated,
      seq(|lessons|, i requires 0 <= i < |lessons| => TocEntryOf(lessons[i], i)),
      seq(|lessons|, i requires 0 <= i < |lessons| => SectionOf(lessons[i])))
  }

  /** Table-of-contents pages run consecutively from page 2, one per section,
      and each entry names the section beside it. */
  lemma TocMatchesSections(lessons: seq<Lesson>, options: PdfOptions, generated: string)
    ensures var s := GeneratePDFStructure(lessons, options, generated);
            && (forall i :: 0 <= i < |s.sections| ==> s.tableOfContents[i].title == s.sections[i].title)
            && (forall i, j :: 0 <= i < j < |s.tableOfContents| ==>
                  s.tableOfContents[j].page - s.tableOfContents[i].page == j - i)
            && (|s.tableOfContents| > 0 ==> s.tableOfContents[0].page == 2)
  {
  }

  /** A lesson's table-of-contents entry lists its blocks' types in the order
      the extractor found them: all text blocks, then image, video and audio. */
  lemma TocListsBlockKinds(content: string, ref: FileRef, lessons: seq<Lesson>, i: nat,
                           options: PdfOptions, generated: string)
    requires i < |lessons| && lessons[i] == AnalyzeLessonContent(content, ref)
    ensures var names := GeneratePDFStructure(lessons, options, generated).tableOfContents[i].sections;
            forall a, b :: 0 <= a < b < |names| ==> KindRank(names[a]) <= KindRank(names[b])
  {
    var blocks := lessons[i].blocks;
    var names := GeneratePDFStructure(lessons, options, generated).tableOfContents[i].sections;
    assert names == BlockTypes(blocks);
    BlockTypesRanked(blocks);
  }

  lemma BlockTypesRanked(blocks: seq<Block>)
    requires forall a, b :: 0 <= a < b < |blocks| ==> blocks[a].kind.Rank() <= blocks[b].kind.Rank()
    ensures var names := BlockTypes(blocks);
            forall a, b :: 0 <= a < b < |names| ==> KindRank(names[a]) <= KindRank(names[b])
  {
    assert forall j :: 0 <= j < |blocks| ==> KindRank(blocks[j].kind.Name()) == blocks[j].kind.Rank();
  }

  /** The table position of a block `type` string. */
  function KindRank(name: string): nat {
    if name == "text" then 0
    else if name == "image" then 1
    else if name == "video" then 2
    else 3
  }
}
