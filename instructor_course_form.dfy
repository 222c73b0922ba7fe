/** The course form (client/src/components/InstructorCourseForm.jsx): typing
    into one input changes one field; the payload splits the tag text at
    commas and trims each tag. */
module InstructorCourseForm {
  import opened Base
  import opened JsStrings

  datatype VideoInput = VideoInput(title: Option<string>, url: Option<string>)

  /** The price input's value: the initial number 0, or what was typed. */
  datatype PriceValue = InitialZero | Typed(text: string)

  datatype FormState = FormState(title: string, description: string, price: PriceValue, category: string,
                                 tags: string, thumbnail: string, videos: seq<VideoInput>)

  const InitialForm := FormState("", "", InitialZero, "", "", "", [VideoInput(Some(""), Some(""))])

  /** The inputs `handleChange` serves, by their `name`. */
  datatype FieldName = Title | Description | Category | Price | Tags | Thumbnail

  /** `handleChange`: `{...course, [name]: value}`. */
  function HandleChange(s: FormState, name: FieldName, value: string): (r: FormState)
    ensures name == Title ==> r == s.(title := value)
    ensures name == Description ==> r == s.(description := value)
    ensures name == Category ==> r == s.(category := value)
    ensures name == Price ==> r == s.(price := Typed(value))
    ensures name == Tags ==> r == s.(tags := value)
    ensures name == Thumbnail ==> r == s.(thumbnail := value)
  {
    match name
    case Title => s.(title := value)
    case Description => s.(description := value)
    case Category => s.(category := value)
    case Price => s.(price := Typed(value))
    case Tags => s.(tags := value)
    case Thumbnail => s.(thumbnail := value)
  }

  /** Typing the same value twice is the same as typing it once. */
  lemma HandleChangeIdempotent(s: FormState, name: FieldName, value: string)
    ensures HandleChange(HandleChange(s, name, value), name, value) == HandleChange(s, name, value)
  {
  }

  /** `{...course.videos[0], title}` (reading a missing first video as `{}`). */
  function FirstVideo(s: FormState): VideoInput {
    if |s.videos| > 0 then s.videos[0] else VideoInput(None, None)
  }

  /** Lines 51-58 and 62-67: the list becomes the first video with its title
      (or its url) replaced; any further video is dropped. */
  function SetVideoTitle(s: FormState, value: string): (r: FormState)
    ensures r == s.(videos := r.videos) && |r.videos| == 1
    ensures r.videos[0].title == Some(value) && r.videos[0].url == FirstVideo(s).url
  {
    s.(videos := [FirstVideo(s).(title := Some(value))])
  }

  function SetVideoUrl(s: FormState, value: string): (r: FormState)
    ensures r == s.(videos := r.videos) && |r.videos| == 1
    ensures r.videos[0].url == Some(value) && r.videos[0].title == FirstVideo(s).title
  {
    s.(videos := [FirstVideo(s).(url := Some(value))])
  }

  /** `tags.split(',').map(tag => tag.trim())`. */
  function ParseTags(tags: string): (r: seq<string>)
    ensures |r| == |Split(tags, ',')|
    ensures forall k :: 0 <= k < |r| ==> r[k] == Trim(Split(tags, ',')[k])
  {
    var pieces := Split(tags, ',');
    seq(|pieces|, k requires 0 <= k < |pieces| => Trim(pieces[k]))
  }

  /** One tag per comma-separated piece, in order, none containing a comma. */
  lemma ParseTagsCount(tags: string)
    ensures |ParseTags(tags)| == CountChar(tags, ',') + 1
    ensures forall k :: 0 <= k < |ParseTags(tags)| ==> ',' !in ParseTags(tags)[k]
  {
    SplitCount(tags, ',');
    SplitPiecesFree(tags, ',');
    forall k | 0 <= k < |ParseTags(tags)| ensures ',' !in ParseTags(tags)[k] {
      var piece := Split(tags, ',')[k];
      var t := ParseTags(tags)[k];
      var i, j :| 0 <= i <= j <= |piece| && t == piece[i..j];
    }
  }

  datatype Payload = Payload(title: string, description: string, price: PriceValue, category: string,
                             tags: seq<string>, thumbnail: string, videos: seq<VideoInput>)

  /** The payload of `handleSubmit`: the form as it is, but with the tags
      parsed. */
  function PayloadOf(s: FormState): (p: Payload)
    ensures p.title == s.title && p.description == s.description && p.price == s.price
    ensures p.category == s.category && p.thumbnail == s.thumbnail && p.videos == s.videos
    ensures p.tags == ParseTags(s.tags)
  {
    Payload(s.title, s.description, s.price, s.category, ParseTags(s.tags), s.thumbnail, s.videos)
  }

  /** The untouched form sends one empty tag. */
  lemma EmptyTagsGiveOneEmptyTag()
    ensures PayloadOf(InitialForm).tags == [""]
  {
    var tags := ParseTags(InitialForm.tags);
    assert InitialForm.tags == "" && Split("", ',') == [""];
    assert TrimEnd(TrimStart("")) == "";
    assert |tags| == 1 && tags[0] == "";
  }
}
