/**
  `CreateImageDto`: the transforms the request goes through (`tags` from a
  comma-separated string, `isPublished` from `'true'`, `order` through
  `Number`) and the validation
  that follows them, ending in the `ImageInput` the gallery service reads.
 */
module CreateImageDto {
  import opened Wrappers
  import opened JsString
  import opened FormValidation
  import opened NumberConversion
  import GalleryService

  /** The request's properties before the transforms. */
  datatype ImageForm = ImageForm(
    title: Value,
    description: Value,
    category: Value,
    tags: Value,
    order: Value,
    isPublished: Value)

  /** A tag as the transform leaves it: not empty, no surrounding whitespace,
      no comma. */
  predicate CleanTag(t: string) {
    t != "" && IsTrimmed(t) && ',' !in t
  }

  /** `.map((t) => t.trim()).filter(Boolean)`: every tag is a trimmed piece and
      every piece that does not trim to "" gives a tag; trimming keeps
      comma-free pieces free of commas. */
  function CleanTags(pieces: seq<string>): (r: seq<string>)
    ensures forall t :: t in r ==> t != "" && IsTrimmed(t)
    ensures (forall p :: p in pieces ==> ',' !in p) ==> forall t :: t in r ==> ',' !in t
    ensures |r| <= |pieces|
  {
    if pieces == [] then []
    else
      var t := Trim(pieces[0]);
      var rest := CleanTags(pieces[1..]);
      assert (forall p :: p in pieces ==> ',' !in p) ==> ',' !in t by {
        if ',' !in pieces[0] {
          TrimKeepsAbsent(pieces[0], ',');
        }
      }
      if t == "" then rest else [t] + rest
  }

  /** The tags of one piece: its trimmed text, or none when that is empty. */
  function PieceTags(p: string): (r: seq<string>)
    ensures |r| <= 1
  {
    if Trim(p) == "" then [] else [Trim(p)]
  }

  /** The tags are exactly the pieces' trimmed texts that are not empty: each
      tag is a trimmed piece, and each piece that does not trim to "" gives one. */
  lemma {:induction false} CleanTagsMembers(pieces: seq<string>)
    ensures forall t :: t in CleanTags(pieces) ==> exists p :: p in pieces && t == Trim(p)
    ensures forall p :: p in pieces && Trim(p) != "" ==> Trim(p) in CleanTags(pieces)
    decreases |pieces|
  {
    if pieces != [] {
      var rest := pieces[1..];
      CleanTagsMembers(rest);
      assert pieces == [pieces[0]] + rest;
      forall t | t in CleanTags(pieces) ensures exists p :: p in pieces && t == Trim(p) {
        if t in CleanTags(rest) {
          var p :| p in rest && t == Trim(p);
          assert p in pieces;
        } else {
          assert pieces[0] in pieces && t == Trim(pieces[0]);
        }
      }
    }
  }

  /** One piece gives its trimmed text as a tag, or nothing when that is empty. */
  lemma CleanTagsOfPiece(p: string)
    ensures CleanTags([p]) == PieceTags(p)
  {
    assert [p][1..] == [];
  }

  /** The transform works piece by piece, in order: cleaning `a + b` gives the
      tags of `a` followed by those of `b`, so the tags are the non-empty trimmed
      pieces in the order they were written. */
  lemma {:induction false} CleanTagsInOrder(a: seq<string>, b: seq<string>)
    ensures CleanTags(a + b) == CleanTags(a) + CleanTags(b)
    decreases |a|
  {
    if a == [] {
      assert a + b == b;
    } else {
      var ab := a + b;
      assert ab[0] == a[0];
      assert ab[1..] == a[1..] + b;
      CleanTagsInOrder(a[1..], b);
      var t := Trim(a[0]);
      if t == "" {
        calc {
          CleanTags(ab);
          CleanTags(a[1..] + b);
          CleanTags(a[1..]) + CleanTags(b);
          CleanTags(a) + CleanTags(b);
        }
      } else {
        calc {
          CleanTags(ab);
          [t] + CleanTags(a[1..] + b);
          [t] + (CleanTags(a[1..]) + CleanTags(b));
          ([t] + CleanTags(a[1..])) + CleanTags(b);
          CleanTags(a) + CleanTags(b);
        }
      }
    }
  }

  /** The tags a comma-separated string stands for: the trimmed pieces between
      commas, without the empty ones. */
  function TagsOfString(s: string): (r: seq<string>)
    ensures forall k :: 0 <= k < |r| ==> CleanTag(r[k])
  {
    var r := CleanTags(Split(s, ','));
    assert forall k :: 0 <= k < |r| ==> r[k] in r;
    r
  }

  /** The tags of a string are exactly the non-empty trimmed pieces between its
      commas: each tag is one, and each one is a tag. */
  lemma TagsOfStringMembers(s: string)
    ensures forall t :: t in TagsOfString(s) ==> exists p :: p in Split(s, ',') && t == Trim(p)
    ensures forall p :: p in Split(s, ',') && Trim(p) != "" ==> Trim(p) in TagsOfString(s)
  {
    CleanTagsMembers(Split(s, ','));
  }

  /** The `@Transform` on `tags`: a string becomes its clean tags, anything
      else passes through. */
  function TransformTags(v: Value): (r: Value)
    ensures v.Str? ==> r.Array? && |r.items| <= |Split(v.s, ',')|
                       && forall k :: 0 <= k < |r.items| ==> r.items[k].Str? && CleanTag(r.items[k].s)
    ensures v.Str? ==> r.items == StrValues(TagsOfString(v.s))
    ensures !v.Str? ==> r == v
  {
    if v.Str? then Array(StrValues(TagsOfString(v.s))) else v
  }

  /** The transform leaves clean tags as they are. */
  lemma {:induction false} CleanTagsKeepsClean(tags: seq<string>)
    requires forall t :: t in tags ==> CleanTag(t)
    ensures CleanTags(tags) == tags
    decreases |tags|
  {
    if tags != [] {
      var t, rest := tags[0], tags[1..];
      assert tags == [t] + rest;
      assert t in tags;
      TrimOfTrimmed(t);
      CleanTagsKeepsClean(rest);
    }
  }

  /** The transform reads back what a client writes: clean tags joined with
      commas come out as the same tags, in order. */
  lemma TagsRoundTrip(tags: seq<string>)
    requires forall k :: 0 <= k < |tags| ==> CleanTag(tags[k])
    ensures TagsOfString(Join(tags, ',')) == tags
  {
    if tags == [] {
      assert Split("", ',') == [""];
      assert Trim("") == "";
    } else {
      SplitJoin(tags, ',');
      assert forall t :: t in tags ==> CleanTag(t);
      CleanTagsKeepsClean(tags);
    }
  }

  /** The `@Transform` on `isPublished`: `true` exactly for `'true'` and `true`. */
  function TransformPublished(v: Value): (r: Value)
    ensures r.Bool?
    ensures r.b <==> v == Str("true") || v == Bool(true)
  {
    Bool(v == Str("true") || v == Bool(true))
  }

  /** The form after the transforms: an absent property is not transformed. */
  function Transformed(form: ImageForm, numeral: string -> JsNumber): (t: ImageForm)
    ensures t.title == form.title && t.description == form.description
    ensures t.category == form.category
    ensures t.tags == if form.tags == Undefined then Undefined else TransformTags(form.tags)
    ensures t.isPublished == if form.isPublished == Undefined then Undefined else TransformPublished(form.isPublished)
    ensures Skipped(t.order) <==> Skipped(form.order)
    ensures form.order.Str? ==> t.order == Num(StringToNumber(form.order.s, numeral))
  {
    form.(tags := if form.tags == Undefined then Undefined else TransformTags(form.tags),
          isPublished := if form.isPublished == Undefined then Undefined else TransformPublished(form.isPublished),
          order := ToNumber(form.order, numeral))
  }

  /** The properties of the DTO, in declaration order. */
  datatype Property = Title | Description | Category | Tags | Order | IsPublished

  predicate TitleOk(v: Value) { IsNotEmpty(v) && MaxLength(v, 200) }
  predicate DescriptionOk(v: Value) { Skipped(v) || MaxLength(v, 1000) }
  predicate CategoryOk(v: Value) { Skipped(v) || MaxLength(v, 100) }
  predicate TagsOk(v: Value) { Skipped(v) || (IsArray(v) && EachMaxLength(v, 59)) }
  predicate OrderOk(v: Value) { Skipped(v) || IsInt(v) }
  predicate PublishedOk(v: Value) { Skipped(v) || IsBoolean(v) }

  predicate AllOk(t: ImageForm) {
    TitleOk(t.title) && DescriptionOk(t.description) && CategoryOk(t.category)
    && TagsOk(t.tags) && OrderOk(t.order) && PublishedOk(t.isPublished)
  }

  /** The check of one property. */
  predicate PropertyOk(t: ImageForm, p: Property) {
    match p
    case Title => TitleOk(t.title)
    case Description => DescriptionOk(t.description)
    case Category => CategoryOk(t.category)
    case Tags => TagsOk(t.tags)
    case Order => OrderOk(t.order)
    case IsPublished => PublishedOk(t.isPublished)
  }

  /** The properties in declaration order. */
  const Properties: seq<Property> := [Title, Description, Category, Tags, Order, IsPublished]

  lemma PropertyListed(p: Property)
    ensures p in Properties
  {
    match p
    case Title => assert Properties[0] == p;
    case Description => assert Properties[1] == p;
    case Category => assert Properties[2] == p;
    case Tags => assert Properties[3] == p;
    case Order => assert Properties[4] == p;
    case IsPublished => assert Properties[5] == p;
  }

  /** The failing properties of a transformed form, in declaration order. */
  function Errors(t: ImageForm): (r: seq<Property>)
    ensures forall p :: p in r <==> !PropertyOk(t, p)
    ensures r == [] <==> AllOk(t)
  {
    var r := Failing(Properties, p => PropertyOk(t, p));
    assert forall p :: p in r <==> !PropertyOk(t, p) by {
      forall p ensures p in r <==> !PropertyOk(t, p) {
        PropertyListed(p);
      }
    }
    assert r == [] ==> AllOk(t) by {
      if r == [] {
        assert PropertyOk(t, Title) && PropertyOk(t, Description) && PropertyOk(t, Category);
        assert PropertyOk(t, Tags) && PropertyOk(t, Order) && PropertyOk(t, IsPublished);
      }
    }
    r
  }

  /** The values the service reads from a form that passed. */
  function Input(t: ImageForm): (d: GalleryService.ImageInput)
    requires AllOk(t)
    ensures 1 <= |d.title| <= 200 && t.title == Str(d.title)
    ensures d.description.None? <==> Skipped(t.description)
    ensures d.description.Some? ==> t.description == Str(d.description.value)
                                    && |d.description.value| <= 1000
    ensures d.category.None? <==> Skipped(t.category)
    ensures d.category.Some? ==> t.category == Str(d.category.value) && |d.category.value| <= 100
    ensures d.tags.Some? ==> forall k :: 0 <= k < |d.tags.value| ==> |d.tags.value[k]| <= 59
    ensures d.tags.None? <==> Skipped(t.tags)
    ensures d.tags.Some? ==> t.tags == Array(StrValues(d.tags.value))
    ensures d.order.None? <==> Skipped(t.order)
    ensures d.order.Some? ==> t.order == Num(IntegerNumber(d.order.value))
    ensures d.isPublished.None? <==> Skipped(t.isPublished)
    ensures d.isPublished.Some? ==> t.isPublished == Bool(d.isPublished.value)
  {
    var tags := if Skipped(t.tags) then None else Some(Strings(t.tags.items));
    assert tags.Some? ==> t.tags.items == StrValues(tags.value);
    GalleryService.ImageInput(t.title.s, OptionalString(t.description), OptionalString(t.category),
                              tags, OptionalInt(t.order), OptionalBool(t.isPublished))
  }

  /** Transform, then validate: the service's input, or the failing properties. */
  function Validate(form: ImageForm, numeral: string -> JsNumber): (r: Result<GalleryService.ImageInput, seq<Property>>)
    ensures r.Ok? <==> AllOk(Transformed(form, numeral))
    ensures r.Ok? ==> r.value == Input(Transformed(form, numeral))
    ensures r.Err? ==> r.error == Errors(Transformed(form, numeral))
  {
    var t := Transformed(form, numeral);
    if AllOk(t) then Ok(Input(t)) else Err(Errors(t))
  }

  /** What a passed form gives the service for the transformed properties:
      the clean tags of a string, and `isPublished` read from `'true'`. */
  lemma ValidatedTransforms(form: ImageForm, numeral: string -> JsNumber)
    requires Validate(form, numeral).Ok?
    ensures form.tags.Str? ==> Validate(form, numeral).value.tags == Some(TagsOfString(form.tags.s))
    ensures form.isPublished != Undefined ==>
              Validate(form, numeral).value.isPublished == Some(form.isPublished == Str("true") || form.isPublished == Bool(true))
    ensures form.isPublished == Undefined ==> Validate(form, numeral).value.isPublished.None?
  {
    var d := Validate(form, numeral).value;
    var t := Transformed(form, numeral);
    if form.tags.Str? {
      assert t.tags == Array(StrValues(TagsOfString(form.tags.s)));
      assert StrValues(d.tags.value) == StrValues(TagsOfString(form.tags.s));
      assert d.tags.value == TagsOfString(form.tags.s) by {
        var a := d.tags.value;
        var b := TagsOfString(form.tags.s);
        assert |a| == |b|;
        forall k | 0 <= k < |a| ensures a[k] == b[k] {
          assert StrValues(a)[k] == StrValues(b)[k];
        }
      }
    }
  }

  /** A multipart form sends `order` as text: the decimal string of an integer
      passes, and the service receives that integer. */
  lemma NumericOrderAccepted(form: ImageForm, n: int, numeral: string -> JsNumber)
    requires -MaxExact <= n <= MaxExact
    requires form.order == Str(IntToString(n))
    ensures OrderOk(Transformed(form, numeral).order)
    ensures Validate(form, numeral).Ok? ==> Validate(form, numeral).value.order == Some(n)
  {
    NumberOfIntToString(n, numeral);
  }

  /** A comma-separated string of short clean tags always passes the tags
      check, and the service receives exactly the tags a client joined. */
  lemma JoinedTagsAccepted(form: ImageForm, tags: seq<string>, numeral: string -> JsNumber)
    requires forall k :: 0 <= k < |tags| ==> CleanTag(tags[k]) && |tags[k]| <= 59
    requires form.tags == Str(Join(tags, ','))
    ensures TagsOk(Transformed(form, numeral).tags)
    ensures Validate(form, numeral).Ok? ==> Validate(form, numeral).value.tags == Some(tags)
  {
    TagsRoundTrip(tags);
    var t := Transformed(form, numeral);
    assert t.tags == Array(StrValues(tags));
    if Validate(form, numeral).Ok? {
      ValidatedTransforms(form, numeral);
    }
  }
}
