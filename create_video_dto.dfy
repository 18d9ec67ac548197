/**
  `CreateVideoDto`: lengths, the optional fields, and the YouTube video id,
  which must be exactly eleven characters from `[a-zA-Z0-9_-]`. `order` is
  converted to a number before it is checked. The result is the
  `VideoInput` the gallery service reads.
 */
module CreateVideoDto {
  import opened Wrappers
  import opened FormValidation
  import opened NumberConversion
  import JsString
  import GalleryService

  datatype VideoForm = VideoForm(
    title: Value,
    description: Value,
    youtubeVideoId: Value,
    category: Value,
    tags: Value,
    order: Value,
    isPublished: Value)

  /** `[a-zA-Z0-9_-]`. */
  predicate IdChar(c: char) {
    ('a' <= c <= 'z') || ('A' <= c <= 'Z') || ('0' <= c <= '9') || c == '_' || c == '-'
  }

  /** `/^[a-zA-Z0-9_-]{11}$/`: eleven id characters and nothing else. */
  predicate VideoIdPattern(s: string) {
    |s| == 11 && forall k :: 0 <= k < |s| ==> IdChar(s[k])
  }

  /** The expression read step by step: `[a-zA-Z0-9_-]{n}` between the two
      anchors matches `s`. */
  predicate MatchesRepeat(s: string, n: nat) {
    if n == 0 then s == []
    else s != [] && IdChar(s[0]) && MatchesRepeat(s[1..], n - 1)
  }

  /** The anchored repetition accepts exactly the strings of `n` id characters. */
  lemma {:induction false} MatchesRepeatIff(s: string, n: nat)
    ensures MatchesRepeat(s, n) <==> |s| == n && forall k :: 0 <= k < |s| ==> IdChar(s[k])
    decreases n
  {
    if n > 0 && s != [] {
      MatchesRepeatIff(s[1..], n - 1);
      assert forall k :: 1 <= k < |s| ==> s[k] == s[1..][k - 1];
    }
  }

  /** The pattern is the regular expression. */
  lemma VideoIdPatternIsRegex(s: string)
    ensures VideoIdPattern(s) <==> MatchesRepeat(s, 11)
  {
    MatchesRepeatIff(s, 11);
  }

  datatype Property = Title | Description | YoutubeVideoId | Category | Tags | Order | IsPublished

  predicate TitleOk(v: Value) { IsNotEmpty(v) && MaxLength(v, 200) }
  predicate DescriptionOk(v: Value) { Skipped(v) || MaxLength(v, 1000) }
  predicate VideoIdOk(v: Value) { IsNotEmpty(v) && Matches(v, VideoIdPattern) }
  predicate CategoryOk(v: Value) { Skipped(v) || MaxLength(v, 100) }
  predicate TagsOk(v: Value) { Skipped(v) || (IsArray(v) && EachMaxLength(v, 50)) }
  predicate OrderOk(v: Value) { Skipped(v) || IsInt(v) }
  predicate PublishedOk(v: Value) { Skipped(v) || IsBoolean(v) }

  /** `@IsNotEmpty` adds nothing to the pattern: the id is valid exactly when
      it is a string the pattern accepts. */
  lemma VideoIdOkIff(v: Value)
    ensures VideoIdOk(v) <==> v.Str? && VideoIdPattern(v.s)
  {
  }

  predicate PropertyOk(f: VideoForm, p: Property) {
    match p
    case Title => TitleOk(f.title)
    case Description => DescriptionOk(f.description)
    case YoutubeVideoId => VideoIdOk(f.youtubeVideoId)
    case Category => CategoryOk(f.category)
    case Tags => TagsOk(f.tags)
    case Order => OrderOk(f.order)
    case IsPublished => PublishedOk(f.isPublished)
  }

  predicate AllOk(f: VideoForm) {
    TitleOk(f.title) && DescriptionOk(f.description) && VideoIdOk(f.youtubeVideoId)
    && CategoryOk(f.category) && TagsOk(f.tags) && OrderOk(f.order) && PublishedOk(f.isPublished)
  }

  /** The properties in declaration order. */
  const Properties: seq<Property> := [Title, Description, YoutubeVideoId, Category, Tags, Order, IsPublished]

  lemma PropertyListed(p: Property)
    ensures p in Properties
  {
    match p
    case Title => assert Properties[0] == p;
    case Description => assert Properties[1] == p;
    case YoutubeVideoId => assert Properties[2] == p;
    case Category => assert Properties[3] == p;
    case Tags => assert Properties[4] == p;
    case Order => assert Properties[5] == p;
    case IsPublished => assert Properties[6] == p;
  }

  /** The failing properties, in declaration order. */
  function Errors(f: VideoForm): (r: seq<Property>)
    ensures forall p :: p in r <==> !PropertyOk(f, p)
    ensures r == [] <==> AllOk(f)
  {
    var r := Failing(Properties, p => PropertyOk(f, p));
    assert forall p :: p in r <==> !PropertyOk(f, p) by {
      forall p ensures p in r <==> !PropertyOk(f, p) {
        PropertyListed(p);
      }
    }
    assert r == [] ==> AllOk(f) by {
      if r == [] {
        assert PropertyOk(f, Title) && PropertyOk(f, Description) && PropertyOk(f, YoutubeVideoId);
        assert PropertyOk(f, Category) && PropertyOk(f, Tags) && PropertyOk(f, Order);
        assert PropertyOk(f, IsPublished);
      }
    }
    r
  }

  /** The form after the `@Type(() => Number)` conversion of `order`. */
  function Transformed(form: VideoForm, numeral: string -> JsNumber): (t: VideoForm)
    ensures t == form.(order := t.order)
    ensures Skipped(t.order) <==> Skipped(form.order)
    ensures form.order.Bool? ==> t.order == Num(IntegerNumber(if form.order.b then 1 else 0))
    ensures form.order.Str? ==> t.order == Num(StringToNumber(form.order.s, numeral))
  {
    form.(order := ToNumber(form.order, numeral))
  }

  /** The values the service reads from a form that passed. */
  function Input(f: VideoForm): (d: GalleryService.VideoInput)
    requires AllOk(f)
    ensures 1 <= |d.title| <= 200 && f.title == Str(d.title)
    ensures d.description.None? <==> Skipped(f.description)
    ensures d.description.Some? ==> f.description == Str(d.description.value)
                                    && |d.description.value| <= 1000
    ensures VideoIdPattern(d.youtubeVideoId) && f.youtubeVideoId == Str(d.youtubeVideoId)
    ensures d.category.None? <==> Skipped(f.category)
    ensures d.category.Some? ==> f.category == Str(d.category.value) && |d.category.value| <= 100
    ensures d.tags.Some? ==> forall k :: 0 <= k < |d.tags.value| ==> |d.tags.value[k]| <= 50
    ensures d.tags.None? <==> Skipped(f.tags)
    ensures d.tags.Some? ==> f.tags == Array(StrValues(d.tags.value))
    ensures d.order.Omitted? <==> f.order == Undefined
    ensures d.order.ExplicitNull? <==> f.order == Null
    ensures d.order.Given? ==> f.order == Num(IntegerNumber(d.order.value))
    ensures d.isPublished.None? <==> Skipped(f.isPublished)
    ensures d.isPublished.Some? ==> f.isPublished == Bool(d.isPublished.value)
  {
    var tags := if Skipped(f.tags) then None else Some(Strings(f.tags.items));
    assert tags.Some? ==> f.tags.items == StrValues(tags.value);
    GalleryService.VideoInput(f.title.s, OptionalString(f.description), f.youtubeVideoId.s,
                              OptionalString(f.category), tags,
                              NullableInt(f.order), OptionalBool(f.isPublished))
  }

  /** Convert, then validate: the service's input, or the failing properties. */
  function Validate(form: VideoForm, numeral: string -> JsNumber): (r: Result<GalleryService.VideoInput, seq<Property>>)
    ensures r.Ok? <==> AllOk(Transformed(form, numeral))
    ensures r.Ok? ==> r.value == Input(Transformed(form, numeral))
    ensures r.Err? ==> r.error == Errors(Transformed(form, numeral))
  {
    var t := Transformed(form, numeral);
    if AllOk(t) then Ok(Input(t)) else Err(Errors(t))
  }

  /** An `order` sent as an integer, as the decimal string of one, or as a
      boolean passes, and the service receives its number; `null` passes and
      reaches the service as `null`. */
  lemma ConvertedOrderAccepted(form: VideoForm, n: int, numeral: string -> JsNumber)
    requires -MaxExact <= n <= MaxExact
    requires || form.order == Num(IntegerNumber(n))
             || form.order == Str(JsString.IntToString(n))
             || (form.order.Bool? && n == if form.order.b then 1 else 0)
    ensures OrderOk(Transformed(form, numeral).order)
    ensures Validate(form, numeral).Ok? ==> Validate(form, numeral).value.order == Given(n)
  {
    if form.order.Str? {
      NumberOfIntToString(n, numeral);
    }
  }

  /** An `order` sent as `null` passes validation and reaches the service as `null`. */
  lemma NullOrderPasses(form: VideoForm, numeral: string -> JsNumber)
    requires form.order == Null
    ensures OrderOk(Transformed(form, numeral).order)
    ensures Validate(form, numeral).Ok? ==> Validate(form, numeral).value.order == ExplicitNull
  {
  }

  /** A video created from a valid form gets a thumbnail URL of fixed length
      that names its video id. */
  lemma ValidVideoThumbnail(form: VideoForm, numeral: string -> JsNumber, id: int, uploader: int, now: int)
    requires Validate(form, numeral).Ok? && form.order != Null
    ensures var item := GalleryService.NewVideoItem(id, Validate(form, numeral).value, uploader, now);
            && item.thumbnailUrl.Some?
            && |item.thumbnailUrl.value| == |GalleryService.ThumbnailPrefix| + 11 + |GalleryService.ThumbnailSuffix|
            && GalleryService.VideoIdOfThumbnail(item.thumbnailUrl.value) == Some(form.youtubeVideoId.s)
  {
    var d := Validate(form, numeral).value;
    GalleryService.ThumbnailRoundTrip(d.youtubeVideoId);
  }
}
