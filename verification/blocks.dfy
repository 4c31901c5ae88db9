/**
 * The four table-driven extractors of a lesson page: content blocks,
 * interactions, assessments and media references. Each runs one global regular
 * expression per kind, kinds in a fixed order, and turns every match into a
 * record of that kind.
 */
module Blocks {
  import opened Text
  import opened Scanner
  import opened Regex

  // ---------------------------------------------------------------- content blocks

  datatype BlockKind = TextBlock | ImageBlock | VideoBlock | AudioBlock {
    /** The record's `type` string. */
    function Name(): string {
      match this
      case TextBlock => "text"
      case ImageBlock => "image"
      case VideoBlock => "video"
      case AudioBlock => "audio"
    }

    /** The class name the kind's pattern looks for. */
    function ClassName(): string {
      match this
      case TextBlock => "text-block"
      case ImageBlock => "image-block"
      case VideoBlock => "video-block"
      case AudioBlock => "audio-block"
    }

    /** Position of the kind's pattern in the table. */
    function Rank(): nat {
      match this
      case TextBlock => 0
      case ImageBlock => 1
      case VideoBlock => 2
      case AudioBlock => 3
    }
  }

  /** A content block: its kind, its cleaned inner text and the whole matched element. */
  datatype Block = Block(kind: BlockKind, content: string, rawHtml: string)

  const BlockKinds: seq<BlockKind> := [TextBlock, ImageBlock, VideoBlock, AudioBlock]

  /** A `div` whose class contains the kind's class name, up to the first `</div>`. */
  function BlockPattern(k: BlockKind): Pattern {
    ClassedElement("div", k.ClassName(), LazyAnyGroup)
  }

  function BlockTable(): seq<(BlockKind, Matcher)> {
    PatternTable(BlockKinds, BlockPattern)
  }

  function MakeBlock(s: string): (BlockKind, Match) -> Block {
    (k: BlockKind, m: Match) => Block(k, CleanText(Group(m, 0)), MatchedText(s, m))
  }

  function KindOfBlock(b: Block): BlockKind {
    b.kind
  }

  function RankOfBlock(b: Block): nat {
    b.kind.Rank()
  }

  /** `extractContentBlocks` */
  function ExtractContentBlocks(content: string): (blocks: seq<Block>)
    ensures |blocks| == MatchCount(BlockTable(), content)
    ensures forall j :: 0 <= j < |blocks| ==> IsClean(blocks[j].content)
    ensures forall a, b :: 0 <= a < b < |blocks| ==> blocks[a].kind.Rank() <= blocks[b].kind.Rank()
  {
    var blocks := Emit(ScanTable(BlockTable(), content), MakeBlock(content));
    ScanTableCount(BlockTable(), content);
    BlocksClean(content, blocks);
    BlocksRanked(content, blocks);
    blocks
  }

  lemma BlocksClean(content: string, blocks: seq<Block>)
    requires blocks == Emit(ScanTable(BlockTable(), content), MakeBlock(content))
    ensures forall j :: 0 <= j < |blocks| ==> IsClean(blocks[j].content)
  {
    var hits := ScanTable(BlockTable(), content);
    forall j | 0 <= j < |blocks|
      ensures IsClean(blocks[j].content)
    {
      assert blocks[j] == Block(hits[j].kind, CleanText(Group(hits[j].m, 0)), MatchedText(content, hits[j].m));
    }
  }

  lemma BlocksRanked(content: string, blocks: seq<Block>)
    requires blocks == Emit(ScanTable(BlockTable(), content), MakeBlock(content))
    ensures forall a, b :: 0 <= a < b < |blocks| ==> blocks[a].kind.Rank() <= blocks[b].kind.Rank()
  {
    BlockTableKinds();
    EmitFollowsTable(BlockTable(), content, MakeBlock(content), BlockRank, RankOfBlock);
  }

  function BlockRank(k: BlockKind): nat {
    k.Rank()
  }

  lemma BlockTableKinds()
    ensures forall i :: 0 <= i < |BlockTable()| ==> BlockRank(BlockTable()[i].0) == i
  {
    assert forall i :: 0 <= i < |BlockKinds| ==> BlockKinds[i].Rank() == i;
  }

  /** The blocks of one kind are exactly what that kind's pattern alone finds, in order. */
  lemma BlocksOfKind(content: string, k: BlockKind)
    ensures OfKind(ExtractContentBlocks(content), KindOfBlock, k)
            == EmitMatches(k, FindAll(Finder(BlockPattern(k)), content, 0), MakeBlock(content))
  {
    var table := BlockTable();
    assert table[0].0 == TextBlock && table[1].0 == ImageBlock && table[2].0 == VideoBlock && table[3].0 == AudioBlock;
    assert DistinctKinds(table);
    EmitOfKind(table, content, k.Rank(), MakeBlock(content), KindOfBlock);
  }

  /** Every block's raw HTML is a whole `div` element: it opens with `<div` and
      closes with `</div>`, in any letter case. */
  lemma BlocksAreDivs(content: string)
    ensures var blocks := ExtractContentBlocks(content);
            forall j :: 0 <= j < |blocks| ==>
              StartsWithIgnoringCase(blocks[j].rawHtml, "<div") && EndsWithIgnoringCase(blocks[j].rawHtml, "</div>")
  {
    BlocksFramed(content, ExtractContentBlocks(content));
  }

  lemma BlocksFramed(content: string, blocks: seq<Block>)
    requires blocks == Emit(ScanTable(BlockTable(), content), MakeBlock(content))
    ensures forall j :: 0 <= j < |blocks| ==>
              StartsWithIgnoringCase(blocks[j].rawHtml, "<div") && EndsWithIgnoringCase(blocks[j].rawHtml, "</div>")
  {
    forall j | 0 <= j < |blocks|
      ensures StartsWithIgnoringCase(blocks[j].rawHtml, "<div") && EndsWithIgnoringCase(blocks[j].rawHtml, "</div>")
    {
      BlockFramed(content, blocks, j);
    }
  }

  lemma BlockFramed(content: string, blocks: seq<Block>, j: nat)
    requires blocks == Emit(ScanTable(BlockTable(), content), MakeBlock(content)) && j < |blocks|
    ensures StartsWithIgnoringCase(blocks[j].rawHtml, "<div") && EndsWithIgnoringCase(blocks[j].rawHtml, "</div>")
  {
    var hits := ScanTable(BlockTable(), content);
    BlockPatternsFramed();
    TableHitFramed(BlockKinds, BlockPattern, content, j);
    assert blocks[j].rawHtml == MatchedText(content, hits[j].m);
  }

  lemma BlockPatternsFramed()
    ensures forall k :: BlockPattern(k) != [] && BlockPattern(k)[0] == Lit("<div")
                        && BlockPattern(k)[|BlockPattern(k)| - 1] == Lit("</div>")
  {
  }

  // ---------------------------------------------------------------- interactions

  datatype InteractionKind = Button | Accordion | Tab | Popup {
    /** The record's `type` string. */
    function Name(): string {
      match this
      case Button => "button"
      case Accordion => "accordion"
      case Tab => "tab"
      case Popup => "popup"
    }

    function Rank(): nat {
      match this
      case Button => 0
      case Accordion => 1
      case Tab => 2
      case Popup => 3
    }
  }

  /** An interaction: its kind and its cleaned inner text. */
  datatype Interaction = Interaction(kind: InteractionKind, content: string)

  const InteractionKinds: seq<InteractionKind> := [Button, Accordion, Tab, Popup]

  /** A button whose class contains `rise`, holding plain text only; or a `div`
      whose class contains the kind's name, up to the first `</div>`. */
  function InteractionPattern(k: InteractionKind): Pattern {
    match k
    case Button => ClassedElement("button", "rise", NonePlusGroup("<"))
    case _ => ClassedElement("div", k.Name(), LazyAnyGroup)
  }

  function InteractionTable(): seq<(InteractionKind, Matcher)> {
    PatternTable(InteractionKinds, InteractionPattern)
  }

  function MakeInteraction(k: InteractionKind, m: Match): Interaction {
    Interaction(k, CleanText(Group(m, 0)))
  }

  function KindOfInteraction(x: Interaction): InteractionKind {
    x.kind
  }

  function RankOfInteraction(x: Interaction): nat {
    x.kind.Rank()
  }

  function InteractionRank(k: InteractionKind): nat {
    k.Rank()
  }

  /** `extractInteractions` */
  function ExtractInteractions(content: string): (xs: seq<Interaction>)
    ensures |xs| == MatchCount(InteractionTable(), content)
    ensures forall j :: 0 <= j < |xs| ==> IsClean(xs[j].content)
    ensures forall a, b :: 0 <= a < b < |xs| ==> xs[a].kind.Rank() <= xs[b].kind.Rank()
  {
    var xs := Emit(ScanTable(InteractionTable(), content), MakeInteraction);
    ScanTableCount(InteractionTable(), content);
    InteractionsClean(content, xs);
    InteractionsRanked(content, xs);
    xs
  }

  lemma InteractionsClean(content: string, xs: seq<Interaction>)
    requires xs == Emit(ScanTable(InteractionTable(), content), MakeInteraction)
    ensures forall j :: 0 <= j < |xs| ==> IsClean(xs[j].content)
  {
    var hits := ScanTable(InteractionTable(), content);
    forall j | 0 <= j < |xs|
      ensures IsClean(xs[j].content)
    {
      assert xs[j] == MakeInteraction(hits[j].kind, hits[j].m);
    }
  }

  lemma InteractionsRanked(content: string, xs: seq<Interaction>)
    requires xs == Emit(ScanTable(InteractionTable(), content), MakeInteraction)
    ensures forall a, b :: 0 <= a < b < |xs| ==> xs[a].kind.Rank() <= xs[b].kind.Rank()
  {
    assert forall i :: 0 <= i < |InteractionKinds| ==> InteractionKinds[i].Rank() == i;
    EmitFollowsTable(InteractionTable(), content, MakeInteraction, InteractionRank, RankOfInteraction);
  }

  /** The interactions of one kind are exactly what that kind's pattern alone finds, in order. */
  lemma InteractionsOfKind(content: string, k: InteractionKind)
    ensures OfKind(ExtractInteractions(content), KindOfInteraction, k)
            == EmitMatches(k, FindAll(Finder(InteractionPattern(k)), content, 0), MakeInteraction)
  {
    var table := InteractionTable();
    assert forall i :: 0 <= i < |InteractionKinds| ==> InteractionKinds[i].Rank() == i;
    assert DistinctKinds(table);
    EmitOfKind(table, content, k.Rank(), MakeInteraction, KindOfInteraction);
  }

  // ---------------------------------------------------------------- assessments

  datatype AssessmentKind = Quiz | Question | KnowledgeCheck {
    /** The record's `type` string, which is also the class name searched for. */
    function Name(): string {
      match this
      case Quiz => "quiz"
      case Question => "question"
      case KnowledgeCheck => "knowledge-check"
    }

    function Rank(): nat {
      match this
      case Quiz => 0
      case Question => 1
      case KnowledgeCheck => 2
    }
  }

  /** An assessment: its kind and its cleaned inner text. */
  datatype Assessment = Assessment(kind: AssessmentKind, content: string)

  const AssessmentKinds: seq<AssessmentKind> := [Quiz, Question, KnowledgeCheck]

  function AssessmentPattern(k: AssessmentKind): Pattern {
    ClassedElement("div", k.Name(), LazyAnyGroup)
  }

  function AssessmentTable(): seq<(AssessmentKind, Matcher)> {
    PatternTable(AssessmentKinds, AssessmentPattern)
  }

  function MakeAssessment(k: AssessmentKind, m: Match): Assessment {
    Assessment(k, CleanText(Group(m, 0)))
  }

  function KindOfAssessment(x: Assessment): AssessmentKind {
    x.kind
  }

  function RankOfAssessment(x: Assessment): nat {
    x.kind.Rank()
  }

  function AssessmentRank(k: AssessmentKind): nat {
    k.Rank()
  }

  /** `extractAssessments` */
  function ExtractAssessments(content: string): (xs: seq<Assessment>)
    ensures |xs| == MatchCount(AssessmentTable(), content)
    ensures forall j :: 0 <= j < |xs| ==> IsClean(xs[j].content)
    ensures forall a, b :: 0 <= a < b < |xs| ==> xs[a].kind.Rank() <= xs[b].kind.Rank()
  {
    var xs := Emit(ScanTable(AssessmentTable(), content), MakeAssessment);
    ScanTableCount(AssessmentTable(), content);
    AssessmentsClean(content, xs);
    AssessmentsRanked(content, xs);
    xs
  }

  lemma AssessmentsClean(content: string, xs: seq<Assessment>)
    requires xs == Emit(ScanTable(AssessmentTable(), content), MakeAssessment)
    ensures forall j :: 0 <= j < |xs| ==> IsClean(xs[j].content)
  {
    var hits := ScanTable(AssessmentTable(), content);
    forall j | 0 <= j < |xs|
      ensures IsClean(xs[j].content)
    {
      assert xs[j] == MakeAssessment(hits[j].kind, hits[j].m);
    }
  }

  lemma AssessmentsRanked(content: string, xs: seq<Assessment>)
    requires xs == Emit(ScanTable(AssessmentTable(), content), MakeAssessment)
    ensures forall a, b :: 0 <= a < b < |xs| ==> xs[a].kind.Rank() <= xs[b].kind.Rank()
  {
    assert forall i :: 0 <= i < |AssessmentKinds| ==> AssessmentKinds[i].Rank() == i;
    EmitFollowsTable(AssessmentTable(), content, MakeAssessment, AssessmentRank, RankOfAssessment);
  }

  /** The assessments of one kind are exactly what that kind's pattern alone finds, in order. */
  lemma AssessmentsOfKind(content: string, k: AssessmentKind)
    ensures OfKind(ExtractAssessments(content), KindOfAssessment, k)
            == EmitMatches(k, FindAll(Finder(AssessmentPattern(k)), content, 0), MakeAssessment)
  {
    var table := AssessmentTable();
    assert forall i :: 0 <= i < |AssessmentKinds| ==> AssessmentKinds[i].Rank() == i;
    assert DistinctKinds(table);
    EmitOfKind(table, content, k.Rank(), MakeAssessment, KindOfAssessment);
  }

  // ---------------------------------------------------------------- media references

  datatype MediaKind = ImageMedia | VideoMedia | AudioMedia {
    /** The record's `type` string. */
    function Name(): string {
      match this
      case ImageMedia => "image"
      case VideoMedia => "video"
      case AudioMedia => "audio"
    }

    /** The element the kind's pattern looks for. */
    function Tag(): string {
      match this
      case ImageMedia => "img"
      case VideoMedia => "video"
      case AudioMedia => "audio"
    }

    function Rank(): nat {
      match this
      case ImageMedia => 0
      case VideoMedia => 1
      case AudioMedia => 2
    }
  }

  /** A media reference: its kind, its `src` value as written, and the whole opening tag. */
  datatype MediaRef = MediaRef(kind: MediaKind, src: string, element: string)

  const MediaKinds: seq<MediaKind> := [ImageMedia, VideoMedia, AudioMedia]

  /** `<tag[^>]*src="([^"]+)"[^>]*>` */
  function MediaPattern(k: MediaKind): Pattern {
    [Lit("<" + k.Tag()), NoneStar(">"), Lit("src=\""), NonePlusGroup("\""), Lit("\""), NoneStar(">"), Lit(">")]
  }

  function MediaTable(): seq<(MediaKind, Matcher)> {
    PatternTable(MediaKinds, MediaPattern)
  }

  function MakeMedia(s: string): (MediaKind, Match) -> MediaRef {
    (k: MediaKind, m: Match) => MediaRef(k, Group(m, 0), MatchedText(s, m))
  }

  function KindOfMedia(x: MediaRef): MediaKind {
    x.kind
  }

  function RankOfMedia(x: MediaRef): nat {
    x.kind.Rank()
  }

  function MediaRank(k: MediaKind): nat {
    k.Rank()
  }

  /** `extractMediaReferences` */
  function ExtractMediaReferences(content: string): (xs: seq<MediaRef>)
    ensures |xs| == MatchCount(MediaTable(), content)
    ensures forall a, b :: 0 <= a < b < |xs| ==> xs[a].kind.Rank() <= xs[b].kind.Rank()
  {
    var xs := Emit(ScanTable(MediaTable(), content), MakeMedia(content));
    ScanTableCount(MediaTable(), content);
    MediaRanked(content, xs);
    xs
  }

  lemma MediaRanked(content: string, xs: seq<MediaRef>)
    requires xs == Emit(ScanTable(MediaTable(), content), MakeMedia(content))
    ensures forall a, b :: 0 <= a < b < |xs| ==> xs[a].kind.Rank() <= xs[b].kind.Rank()
  {
    assert forall i :: 0 <= i < |MediaKinds| ==> MediaKinds[i].Rank() == i;
    EmitFollowsTable(MediaTable(), content, MakeMedia(content), MediaRank, RankOfMedia);
  }

  /** The references of one kind are exactly what that kind's pattern alone finds, in order. */
  lemma MediaOfKind(content: string, k: MediaKind)
    ensures OfKind(ExtractMediaReferences(content), KindOfMedia, k)
            == EmitMatches(k, FindAll(Finder(MediaPattern(k)), content, 0), MakeMedia(content))
  {
    var table := MediaTable();
    assert forall i :: 0 <= i < |MediaKinds| ==> MediaKinds[i].Rank() == i;
    assert DistinctKinds(table);
    EmitOfKind(table, content, k.Rank(), MakeMedia(content), KindOfMedia);
  }

  /** Every reference's element is an opening tag of its own kind: it opens with
      `<img`, `<video` or `<audio` and closes with `>`, in any letter case. */
  lemma MediaAreTags(content: string)
    ensures var xs := ExtractMediaReferences(content);
            forall j :: 0 <= j < |xs| ==>
              StartsWithIgnoringCase(xs[j].element, "<" + xs[j].kind.Tag()) && EndsWithIgnoringCase(xs[j].element, ">")
  {
    MediaFramed(content, ExtractMediaReferences(content));
  }

  lemma MediaFramed(content: string, xs: seq<MediaRef>)
    requires xs == Emit(ScanTable(MediaTable(), content), MakeMedia(content))
    ensures forall j :: 0 <= j < |xs| ==>
              StartsWithIgnoringCase(xs[j].element, "<" + xs[j].kind.Tag()) && EndsWithIgnoringCase(xs[j].element, ">")
  {
    forall j | 0 <= j < |xs|
      ensures StartsWithIgnoringCase(xs[j].element, "<" + xs[j].kind.Tag()) && EndsWithIgnoringCase(xs[j].element, ">")
    {
      MediaRefFramed(content, xs, j);
    }
  }

  lemma MediaRefFramed(content: string, xs: seq<MediaRef>, j: nat)
    requires xs == Emit(ScanTable(MediaTable(), content), MakeMedia(content)) && j < |xs|
    ensures StartsWithIgnoringCase(xs[j].element, "<" + xs[j].kind.Tag()) && EndsWithIgnoringCase(xs[j].element, ">")
  {
    var hits := ScanTable(MediaTable(), content);
    assert forall k :: MediaPattern(k)[|MediaPattern(k)| - 1] == Lit(">");
    TableHitFramed(MediaKinds, MediaPattern, content, j);
    assert xs[j] == MediaRef(hits[j].kind, Group(hits[j].m, 0), MatchedText(content, hits[j].m));
  }
}
