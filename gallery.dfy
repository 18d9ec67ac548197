/**
  `GalleryService` over an in-memory table of gallery items: creation of
  image and video items, the all-or-nothing reorder, removal, the lookup
  that fails with 406, and the published listing with its pagination.

  The media host is outside the model: an upload is given as its result,
  and `Remove` returns the public id it would ask the host to delete.
 */
module GalleryService {
  import opened Wrappers
  import opened Exceptions
  import opened JsString

  datatype GalleryType = Image | Video

  /** A gallery row; `createdAt` is milliseconds since the epoch. */
  datatype GalleryItem = GalleryItem(
    id: int,
    title: string,
    description: Option<string>,
    galleryType: GalleryType,
    cloudinaryPublicId: Option<string>,
    imageUrl: Option<string>,
    thumbnailUrl: Option<string>,
    width: Option<int>,
    height: Option<int>,
    youtubeVideoId: Option<string>,
    category: Option<string>,
    tags: seq<string>,
    order: int,
    isPublished: bool,
    uploadedById: int,
    createdAt: int)

  /** A validated `CreateImageDto`; absent fields are `None`. */
  datatype ImageInput = ImageInput(
    title: string,
    description: Option<string>,
    category: Option<string>,
    tags: Option<seq<string>>,
    order: Option<int>,
    isPublished: Option<bool>)

  /** A validated `CreateVideoDto`; absent fields are `None`. A JSON body can
      send `order` as `null`, which the row copies, so `order` keeps that case. */
  datatype VideoInput = VideoInput(
    title: string,
    description: Option<string>,
    youtubeVideoId: string,
    category: Option<string>,
    tags: Option<seq<string>>,
    order: Field<int>,
    isPublished: Option<bool>)

  /** What the media host reports for an uploaded image. */
  datatype UploadResult = UploadResult(
    publicId: string,
    secureUrl: string,
    thumbnailUrl: string,
    width: int,
    height: int)

  const ThumbnailPrefix := "https://img.youtube.com/vi/"
  const ThumbnailSuffix := "/maxresdefault.jpg"

  /** The thumbnail of a YouTube video. */
  function ThumbnailUrl(videoId: string): string {
    ThumbnailPrefix + videoId + ThumbnailSuffix
  }

  /** The video id a thumbnail URL was built from, if it has that shape. */
  function VideoIdOfThumbnail(url: string): Option<string> {
    if |url| >= |ThumbnailPrefix| + |ThumbnailSuffix|
       && url[..|ThumbnailPrefix|] == ThumbnailPrefix
       && url[|url| - |ThumbnailSuffix|..] == ThumbnailSuffix
    then Some(url[|ThumbnailPrefix|..|url| - |ThumbnailSuffix|])
    else None
  }

  /** A video's thumbnail URL names exactly its video id. */
  lemma ThumbnailRoundTrip(videoId: string)
    ensures VideoIdOfThumbnail(ThumbnailUrl(videoId)) == Some(videoId)
  {
    var url := ThumbnailUrl(videoId);
    assert url[..|ThumbnailPrefix|] == ThumbnailPrefix;
    assert url[|url| - |ThumbnailSuffix|..] == ThumbnailSuffix;
    assert url[|ThumbnailPrefix|..|url| - |ThumbnailSuffix|] == videoId;
  }

  /** The row `createImage` saves. */
  function NewImageItem(id: int, dto: ImageInput, upload: UploadResult, uploadedById: int, now: int): GalleryItem {
    GalleryItem(id, dto.title, dto.description, Image, Some(upload.publicId), Some(upload.secureUrl),
                Some(upload.thumbnailUrl), Some(upload.width), Some(upload.height), None, dto.category,
                dto.tags.GetOr([]), dto.order.GetOr(0), dto.isPublished.GetOr(true), uploadedById, now)
  }

  /** The row `createVideo` saves. An `order` sent as `null` is spread into the
      row, and the `order` column, which is NOT NULL, refuses it: there is no
      such row. An omitted `order` takes the column default 0. */
  function NewVideoItem(id: int, dto: VideoInput, uploadedById: int, now: int): GalleryItem
    requires !dto.order.ExplicitNull?
  {
    GalleryItem(id, dto.title, dto.description, Video, None, None, Some(ThumbnailUrl(dto.youtubeVideoId)),
                None, None, Some(dto.youtubeVideoId), dto.category,
                dto.tags.GetOr([]), if dto.order.Given? then dto.order.value else 0,
                dto.isPublished.GetOr(true), uploadedById, now)
  }

  /** Created items have no tags and are published unless the request says
      otherwise; an image keeps the host's public id, a video's thumbnail is
      derived from its video id. */
  lemma CreationDefaults(id: int, image: ImageInput, video: VideoInput, upload: UploadResult, uploader: int, now: int)
    requires !video.order.ExplicitNull?
    ensures var item := NewImageItem(id, image, upload, uploader, now);
            && item.galleryType == Image && item.cloudinaryPublicId == Some(upload.publicId)
            && (image.order.None? ==> item.order == 0)
            && (image.tags.None? ==> item.tags == [])
            && (image.isPublished.None? ==> item.isPublished)
            && (image.isPublished.Some? ==> item.isPublished == image.isPublished.value)
    ensures var item := NewVideoItem(id, video, uploader, now);
            && item.galleryType == Video && item.cloudinaryPublicId.None?
            && (video.order.Omitted? ==> item.order == 0)
            && (video.tags.None? ==> item.tags == [])
            && (video.isPublished.None? ==> item.isPublished)
            && (video.isPublished.Some? ==> item.isPublished == video.isPublished.value)
            && item.thumbnailUrl.Some?
            && VideoIdOfThumbnail(item.thumbnailUrl.value) == Some(video.youtubeVideoId)
  {
    ThumbnailRoundTrip(video.youtubeVideoId);
  }

  // ---------------------------------------------------------------------
  // Ids, reorder

  function IdsOf(items: seq<GalleryItem>): (ids: seq<int>)
    ensures |ids| == |items| && forall k :: 0 <= k < |items| ==> ids[k] == items[k].id
  {
    seq(|items|, k requires 0 <= k < |items| => items[k].id)
  }

  predicate DistinctInts(s: seq<int>) {
    forall j, k :: 0 <= j < k < |s| ==> s[j] != s[k]
  }

  function SetOf(s: seq<int>): set<int> {
    set x | x in s
  }

  /** One entry of `ReorderGalleryDto.items`. */
  datatype ReorderEntry = ReorderEntry(id: int, order: int)

  function RequestIds(req: seq<ReorderEntry>): (ids: seq<int>)
    ensures |ids| == |req| && forall k :: 0 <= k < |req| ==> ids[k] == req[k].id
  {
    seq(|req|, k requires 0 <= k < |req| => req[k].id)
  }

  /** `find({ where: { id: In(ids) } })`: the rows whose id is requested, in table order. */
  function FoundItems(items: seq<GalleryItem>, ids: seq<int>): (found: seq<GalleryItem>)
    ensures forall k :: 0 <= k < |found| ==> found[k] in items && found[k].id in ids
    ensures forall k :: 0 <= k < |items| && items[k].id in ids ==> items[k] in found
  {
    if items == [] then []
    else
      var rest := FoundItems(items[1..], ids);
      assert forall k :: 1 <= k < |items| ==> items[k] == items[1..][k - 1];
      if items[0].id in ids then [items[0]] + rest else rest
  }

  /** The requested ids with no row, in request order. */
  function MissingIds(ids: seq<int>, found: seq<int>): (missing: seq<int>)
    ensures forall x :: x in missing <==> x in ids && x !in found
    ensures (forall k :: 0 <= k < |ids| ==> ids[k] in found) ==> missing == []
  {
    if ids == [] then []
    else
      var rest := MissingIds(ids[1..], found);
      assert forall x :: x in ids <==> x == ids[0] || x in ids[1..];
      assert forall k :: 1 <= k < |ids| ==> ids[k] == ids[1..][k - 1];
      if ids[0] !in found then [ids[0]] + rest else rest
  }

  function IdStrings(ids: seq<int>): (r: seq<string>)
    ensures |r| == |ids| && forall k :: 0 <= k < |ids| ==> r[k] == IntToString(ids[k])
  {
    seq(|ids|, k requires 0 <= k < |ids| => IntToString(ids[k]))
  }

  /** The message of the BadRequest `reorder` throws. */
  function ReorderErrorMessage(items: seq<GalleryItem>, req: seq<ReorderEntry>): string {
    var ids := RequestIds(req);
    var missing := MissingIds(ids, IdsOf(FoundItems(items, ids)));
    "Gallery items with IDs " + JoinWith(IdStrings(missing), ", ") + " not found"
  }

  /** The index of the first entry for `id`. */
  function FirstEntry(req: seq<ReorderEntry>, id: int): (r: Option<nat>)
    ensures r.None? <==> forall k :: 0 <= k < |req| ==> req[k].id != id
    ensures r.Some? ==> r.value < |req| && req[r.value].id == id
                        && forall j :: 0 <= j < r.value ==> req[j].id != id
  {
    if req == [] then None
    else if req[0].id == id then Some(0)
    else
      var rest := FirstEntry(req[1..], id);
      assert forall k :: 1 <= k < |req| ==> req[k] == req[1..][k - 1];
      match rest
      case None => None
      case Some(k) => Some(k + 1)
  }

  /** `dto.items.find((i) => i.id === id)?.order`. */
  function FirstOrder(req: seq<ReorderEntry>, id: int): (r: Option<int>)
    ensures r.Some? <==> id in RequestIds(req)
    ensures r.Some? ==> exists k :: 0 <= k < |req| && req[k].id == id && req[k].order == r.value
                                    && forall j :: 0 <= j < k ==> req[j].id != id
  {
    var ids := RequestIds(req);
    assert id in ids <==> exists k :: 0 <= k < |req| && req[k].id == id by {
      if id in ids {
        var k :| 0 <= k < |ids| && ids[k] == id;
        assert req[k].id == id;
      }
      if exists k :: 0 <= k < |req| && req[k].id == id {
        var k :| 0 <= k < |req| && req[k].id == id;
        assert ids[k] == id;
      }
    }
    match FirstEntry(req, id)
    case Some(k) => Some(req[k].order)
    case None => None
  }

  /** The table after a successful `reorder`: each requested row gets the order of
      the first entry for its id; nothing else changes. */
  function Reordered(items: seq<GalleryItem>, req: seq<ReorderEntry>): (r: seq<GalleryItem>)
    ensures |r| == |items|
    ensures forall k :: 0 <= k < |items| ==> r[k] == items[k].(order := r[k].order)
    ensures forall k :: 0 <= k < |items| ==>
              r[k].order == if items[k].id in RequestIds(req) then FirstOrder(req, items[k].id).value else items[k].order
  {
    seq(|items|, k requires 0 <= k < |items| =>
      match FirstOrder(req, items[k].id)
      case Some(o) => items[k].(order := o)
      case None => items[k])
  }

  /** A subset is no larger, and a subset as large is the whole set. */
  lemma SubsetCardinality(a: set<int>, b: set<int>)
    requires a <= b
    ensures |a| <= |b|
    ensures |a| == |b| ==> a == b
  {
    assert b == a + (b - a);
    assert a * (b - a) == {};
    if |a| == |b| {
      assert |b - a| == 0;
    }
  }

  lemma {:induction false} SetOfCardinality(s: seq<int>)
    ensures |SetOf(s)| <= |s|
    ensures |SetOf(s)| == |s| <==> DistinctInts(s)
    decreases |s|
  {
    if s != [] {
      var rest := s[1..];
      SetOfCardinality(rest);
      assert SetOf(s) == SetOf(rest) + {s[0]};
      assert forall k :: 1 <= k < |s| ==> s[k] == rest[k - 1];
      if s[0] in rest {
        assert SetOf(s) == SetOf(rest);
        var k :| 0 <= k < |rest| && rest[k] == s[0];
        assert s[k + 1] == s[0];
      } else {
        assert DistinctInts(s) <==> DistinctInts(rest);
      }
    }
  }

  /** With distinct row ids, the number of rows `In(ids)` finds is the number of
      distinct requested ids that have a row. */
  lemma {:induction false} FoundItemsCardinality(items: seq<GalleryItem>, ids: seq<int>)
    requires DistinctInts(IdsOf(items))
    ensures |FoundItems(items, ids)| == |SetOf(ids) * SetOf(IdsOf(items))|
    decreases |items|
  {
    if items != [] {
      var x, rest := items[0].id, items[1..];
      var restIds := IdsOf(rest);
      DistinctTail(items);
      FoundItemsCardinality(rest, ids);
      assert |FoundItems(items, ids)| == |FoundItems(rest, ids)| + if x in ids then 1 else 0;
      IntersectionCons(SetOf(ids), SetOf(restIds), x);
    }
  }

  /** Adding a new element to one side grows the intersection by one exactly
      when the other side holds it. */
  lemma IntersectionCons(a: set<int>, c: set<int>, x: int)
    requires x !in c
    ensures |a * (c + {x})| == |a * c| + if x in a then 1 else 0
  {
    if x in a {
      assert a * (c + {x}) == (a * c) + {x};
    } else {
      assert a * (c + {x}) == a * c;
    }
  }

  lemma SetOfCons(x: int, s: seq<int>)
    ensures SetOf([x] + s) == SetOf(s) + {x}
  {
    assert forall y :: y in [x] + s <==> y == x || y in s;
  }

  /** `reorder` goes ahead exactly when the requested ids are distinct and every
      one of them has a row: a duplicate or an unknown id is rejected. */
  lemma ReorderAcceptedIff(items: seq<GalleryItem>, req: seq<ReorderEntry>)
    requires DistinctInts(IdsOf(items))
    ensures |FoundItems(items, RequestIds(req))| == |req| <==>
              DistinctInts(RequestIds(req)) && forall k :: 0 <= k < |req| ==> req[k].id in IdsOf(items)
  {
    var ids := RequestIds(req);
    var s := SetOf(ids);
    var t := SetOf(IdsOf(items));
    FoundItemsCardinality(items, ids);
    SetOfCardinality(ids);
    SubsetCardinality(s * t, s);
    if |FoundItems(items, ids)| == |req| {
      forall k | 0 <= k < |req| ensures req[k].id in IdsOf(items) {
        assert ids[k] in s;
      }
    }
    if DistinctInts(ids) && forall k :: 0 <= k < |req| ==> req[k].id in IdsOf(items) {
      assert s * t == s by {
        forall x | x in s ensures x in t {
          var k :| 0 <= k < |ids| && ids[k] == x;
          assert req[k].id in IdsOf(items);
        }
      }
    }
  }

  /** The ids of the rows `In(ids)` finds are the requested ids that have a row. */
  lemma FoundIds(items: seq<GalleryItem>, ids: seq<int>)
    ensures forall x :: x in IdsOf(FoundItems(items, ids)) <==> x in ids && x in IdsOf(items)
  {
    var found := FoundItems(items, ids);
    var fids := IdsOf(found);
    var iids := IdsOf(items);
    forall x | x in fids ensures x in ids && x in iids {
      var k :| 0 <= k < |fids| && fids[k] == x;
      var m :| 0 <= m < |items| && items[m] == found[k];
      assert iids[m] == x;
    }
    forall x | x in ids && x in iids ensures x in fids {
      var m :| 0 <= m < |iids| && iids[m] == x;
      var k :| 0 <= k < |found| && found[k] == items[m];
      assert fids[k] == x;
    }
  }

  /** The error names exactly the requested ids that have no row; so when every
      id exists and the request is rejected for a duplicate, it names none. */
  lemma ReorderErrorNamesMissing(items: seq<GalleryItem>, req: seq<ReorderEntry>)
    ensures var ids := RequestIds(req);
            var missing := MissingIds(ids, IdsOf(FoundItems(items, ids)));
            && (forall x :: x in missing <==> x in ids && x !in IdsOf(items))
            && ((forall k :: 0 <= k < |req| ==> req[k].id in IdsOf(items)) ==>
                  ReorderErrorMessage(items, req) == "Gallery items with IDs  not found")
  {
    var ids := RequestIds(req);
    var found := IdsOf(FoundItems(items, ids));
    FoundIds(items, ids);
    if forall k :: 0 <= k < |req| ==> req[k].id in IdsOf(items) {
      assert MissingIds(ids, found) == [] by {
        forall k | 0 <= k < |ids| ensures ids[k] in found {
          assert ids[k] == req[k].id;
        }
      }
      assert IdStrings([]) == [];
    }
  }

  // ---------------------------------------------------------------------
  // findAllPublished

  /** The query of `findAllPublished`, with `page` and `limit` already parsed. */
  datatype GalleryQuery = GalleryQuery(
    galleryType: Option<GalleryType>,
    category: Option<string>,
    page: Option<int>,
    limit: Option<int>)

  /** `Math.ceil(total / limit)` as a JavaScript number. */
  datatype PageCount = Pages(n: nat) | Infinity | NotANumber

  /** The page, limit and offset `findAllPublished` computes. */
  datatype Paging = Paging(page: int, limit: int, skip: int)

  function PagingOf(query: GalleryQuery): (p: Paging)
    ensures p.page == query.page.GetOr(1)
    ensures p.limit <= 50 && (query.limit.None? ==> p.limit == 20)
    ensures query.limit.Some? ==> p.limit == if query.limit.value < 50 then query.limit.value else 50
    ensures p.skip == (p.page - 1) * p.limit
  {
    var page := query.page.GetOr(1);
    var requested := query.limit.GetOr(20);
    var limit := if requested < 50 then requested else 50;
    Paging(page, limit, (page - 1) * limit)
  }

  /** `Math.ceil(total / limit)` for a non-negative limit. */
  function TotalPages(total: nat, limit: nat): (r: PageCount)
    ensures limit > 0 ==> r.Pages?
    ensures limit == 0 ==> r == if total == 0 then NotANumber else Infinity
  {
    if limit == 0 then (if total == 0 then NotANumber else Infinity)
    else Pages((total + limit - 1) / limit)
  }

  /** With a positive limit the pages exactly cover the items: no page is empty
      but possibly the last, and none is missing. */
  lemma TotalPagesCover(total: nat, limit: nat)
    requires limit > 0
    ensures var n := TotalPages(total, limit).n;
            && (n == 0 <==> total == 0)
            && (total > 0 ==> (n - 1) * limit < total <= n * limit)
  {
    var n := (total + limit - 1) / limit;
    assert n * limit <= total + limit - 1 < (n + 1) * limit;
  }

  /** `order ASC, createdAt DESC`. */
  predicate ListedBefore(a: GalleryItem, b: GalleryItem) {
    a.order < b.order || (a.order == b.order && a.createdAt >= b.createdAt)
  }

  predicate SortedForListing(s: seq<GalleryItem>) {
    forall j, k :: 0 <= j < k < |s| ==> ListedBefore(s[j], s[k])
  }

  lemma SortedHeadFirst(s: seq<GalleryItem>)
    requires SortedForListing(s) && s != []
    ensures forall y :: y in s[1..] ==> ListedBefore(s[0], y)
  {
    forall y | y in s[1..] ensures ListedBefore(s[0], y) {
      var k :| 0 <= k < |s[1..]| && s[1..][k] == y;
      assert s[k + 1] == y;
    }
  }

  /** An item listed before every element of a sorted listing can head it. */
  lemma SortedCons(a: GalleryItem, s: seq<GalleryItem>)
    requires SortedForListing(s)
    requires forall y :: y in s ==> ListedBefore(a, y)
    ensures SortedForListing([a] + s)
  {
    var r := [a] + s;
    forall j, k | 0 <= j < k < |r| ensures ListedBefore(r[j], r[k]) {
      assert r[k] == s[k - 1];
      if j == 0 {
        assert s[k - 1] in s;
      } else {
        assert r[j] == s[j - 1];
      }
    }
  }

  function Insert(x: GalleryItem, s: seq<GalleryItem>): (r: seq<GalleryItem>)
    requires SortedForListing(s)
    ensures SortedForListing(r)
    ensures multiset(r) == multiset(s) + multiset{x}
    ensures forall y :: y in r ==> y == x || y in s
  {
    if s == [] then [x]
    else
      SortedHeadFirst(s);
      assert s == [s[0]] + s[1..];
      if ListedBefore(x, s[0]) then
        SortedCons(x, s);
        [x] + s
      else
        var rest := Insert(x, s[1..]);
        SortedCons(s[0], rest);
        [s[0]] + rest
  }

  /** The listing order the query asks the database for; rows that tie keep
      table order. */
  function SortForListing(s: seq<GalleryItem>): (r: seq<GalleryItem>)
    ensures SortedForListing(r)
    ensures multiset(r) == multiset(s)
  {
    if s == [] then []
    else
      assert s == [s[0]] + s[1..];
      Insert(s[0], SortForListing(s[1..]))
  }

  /** `isPublished = true`, and the type and category filters when they are truthy. */
  predicate Listed(item: GalleryItem, query: GalleryQuery) {
    && item.isPublished
    && (query.galleryType.Some? ==> item.galleryType == query.galleryType.value)
    && (IsTruthy(query.category) ==> item.category == query.category)
  }

  /** A truthy optional string. */
  predicate IsTruthy(s: Option<string>) {
    s.Some? && s.value != ""
  }

  function ListedItems(items: seq<GalleryItem>, query: GalleryQuery): (r: seq<GalleryItem>)
    ensures forall k :: 0 <= k < |r| ==> Listed(r[k], query)
    ensures forall x :: multiset(r)[x] == if Listed(x, query) then multiset(items)[x] else 0
  {
    if items == [] then []
    else
      var rest := ListedItems(items[1..], query);
      assert items == [items[0]] + items[1..];
      if Listed(items[0], query) then [items[0]] + rest else rest
  }

  /** `findAllPublished`'s result. */
  datatype GalleryPage = GalleryPage(data: seq<GalleryItem>, total: nat, page: int, totalPages: PageCount)

  /** `skip(skip).take(limit)`: a zero take is no limit. */
  function Window(s: seq<GalleryItem>, skip: nat, limit: nat): (r: seq<GalleryItem>)
    ensures limit > 0 ==> |r| <= limit
    ensures skip < |s| ==> skip + |r| <= |s| && r == s[skip..skip + |r|]
    ensures |r| == if skip >= |s| then 0
                   else if limit == 0 || |s| - skip < limit then |s| - skip
                   else limit
  {
    var from := if skip < |s| then skip else |s|;
    var to := if limit == 0 || from + limit > |s| then |s| else from + limit;
    s[from..to]
  }

  /** `findAllPublished`: `Err` when the offset or the limit is negative,
      which the database refuses. */
  function FindAllPublished(items: seq<GalleryItem>, query: GalleryQuery): (r: Result<GalleryPage, Thrown>)
    ensures r.Ok? <==> PagingOf(query).skip >= 0 && PagingOf(query).limit >= 0
    ensures r.Ok? ==>
              var p := PagingOf(query);
              && r.value.page == p.page
              && r.value.total == |ListedItems(items, query)|
              && r.value.totalPages == TotalPages(r.value.total, p.limit)
              && r.value.data == Window(SortForListing(ListedItems(items, query)), p.skip, p.limit)
  {
    var p := PagingOf(query);
    if p.skip < 0 || p.limit < 0 then Err(PlainError("negative OFFSET or LIMIT"))
    else
      var listed := ListedItems(items, query);
      Ok(GalleryPage(Window(SortForListing(listed), p.skip, p.limit), |listed|, p.page,
                     TotalPages(|listed|, p.limit)))
  }

  /** A window of a sequence keeps its elements and their order. */
  lemma WindowOfSorted(s: seq<GalleryItem>, skip: nat, limit: nat)
    requires SortedForListing(s)
    ensures var w := Window(s, skip, limit);
            && (forall k :: 0 <= k < |w| ==> w[k] in s)
            && SortedForListing(w)
  {
    var w := Window(s, skip, limit);
    if skip < |s| {
      forall k | 0 <= k < |w| ensures w[k] in s {
        assert w[k] == s[skip + k];
      }
      forall j, k | 0 <= j < k < |w| ensures ListedBefore(w[j], w[k]) {
        assert w[j] == s[skip + j] && w[k] == s[skip + k];
      }
    }
  }

  /** A page holds only published rows that pass the filters, in listing order,
      and at most `limit` of them. */
  lemma PublishedPageContents(items: seq<GalleryItem>, query: GalleryQuery)
    requires FindAllPublished(items, query).Ok?
    ensures var data := FindAllPublished(items, query).value.data;
            && (forall k :: 0 <= k < |data| ==> Listed(data[k], query))
            && SortedForListing(data)
            && (PagingOf(query).limit > 0 ==> |data| <= PagingOf(query).limit)
  {
    var p := PagingOf(query);
    var listed := ListedItems(items, query);
    var sorted := SortForListing(listed);
    var data := Window(sorted, p.skip, p.limit);
    WindowOfSorted(sorted, p.skip, p.limit);
    forall k | 0 <= k < |data| ensures Listed(data[k], query) {
      assert multiset(sorted)[data[k]] > 0;
      assert multiset(listed)[data[k]] > 0;
    }
  }

  // ---------------------------------------------------------------------
  // The table

  class GalleryStore {
    var items: seq<GalleryItem>
    var nextId: int

    /** Row ids are distinct and below the next id to be generated. */
    ghost predicate Valid()
      reads this
    {
      && DistinctInts(IdsOf(items))
      && forall k :: 0 <= k < |items| ==> items[k].id < nextId
    }

    constructor ()
      ensures Valid() && items == [] && nextId == 1
    {
      items := [];
      nextId := 1;
    }

    /** `findOrFail`. */
    function FindOrFail(id: int): (r: Result<GalleryItem, Thrown>)
      reads this
      ensures r.Ok? <==> id in IdsOf(items)
      ensures r.Ok? ==> r.value in items && r.value.id == id
      ensures r.Err? ==> r.error == NotAcceptable("Gallery item with ID " + IntToString(id) + " not found")
    {
      FindIn(items, id)
    }

    /** Appending a row with a fresh id keeps the ids distinct. */
    lemma AppendKeepsValid(item: GalleryItem)
      requires Valid() && item.id == nextId
      ensures DistinctInts(IdsOf(items + [item]))
      ensures forall k :: 0 <= k < |items + [item]| ==> (items + [item])[k].id < nextId + 1
    {
      assert IdsOf(items + [item]) == IdsOf(items) + [nextId];
    }

    /** `createImage` with the host's upload result. */
    method CreateImage(dto: ImageInput, upload: UploadResult, uploadedById: int, now: int)
      returns (item: GalleryItem)
      requires Valid()
      modifies this
      ensures Valid()
      ensures item == NewImageItem(old(nextId), dto, upload, uploadedById, now)
      ensures items == old(items) + [item] && nextId == old(nextId) + 1
    {
      item := NewImageItem(nextId, dto, upload, uploadedById, now);
      AppendKeepsValid(item);
      items := items + [item];
      nextId := nextId + 1;
    }

    /** `createVideo`. The insert draws the next id before the database checks
        the row, so a row refused for its `null` order still uses up an id;
        `refusal` is the database's message for that refusal. */
    method CreateVideo(dto: VideoInput, uploadedById: int, now: int, refusal: string)
      returns (r: Result<GalleryItem, Thrown>)
      requires Valid()
      modifies this
      ensures Valid() && nextId == old(nextId) + 1
      ensures dto.order.ExplicitNull? ==> r == Err(PlainError(refusal)) && items == old(items)
      ensures !dto.order.ExplicitNull? ==>
                && r == Ok(NewVideoItem(old(nextId), dto, uploadedById, now))
                && items == old(items) + [r.value]
    {
      if dto.order.ExplicitNull? {
        nextId := nextId + 1;
        return Err(PlainError(refusal));
      }
      var item := NewVideoItem(nextId, dto, uploadedById, now);
      AppendKeepsValid(item);
      items := items + [item];
      nextId := nextId + 1;
      r := Ok(item);
    }

    /** `reorder`: all or nothing. When the rows found differ in number from the
        entries, nothing changes and the error names the missing ids; otherwise
        each requested row takes its new order and the count is returned. */
    method Reorder(req: seq<ReorderEntry>) returns (r: Result<nat, Thrown>)
      requires Valid()
      modifies this
      ensures Valid() && nextId == old(nextId)
      ensures r.Err? <==> |FoundItems(old(items), RequestIds(req))| != |req|
      ensures r.Err? ==> items == old(items) && r.error == BadRequest(ReorderErrorMessage(old(items), req))
      ensures r.Ok? ==> items == Reordered(old(items), req) && r.value == |req|
    {
      var ids := RequestIds(req);
      var found := FoundItems(items, ids);
      if |found| != |req| {
        return Err(BadRequest(ReorderErrorMessage(items, req)));
      }

      // The loop visits every row and updates those the lookup found.
      var k := 0;
      while k < |items|
        invariant 0 <= k <= |items| == |old(items)| && nextId == old(nextId)
        invariant forall j :: 0 <= j < k ==> items[j] == Reordered(old(items), req)[j]
        invariant forall j :: k <= j < |items| ==> items[j] == old(items)[j]
      {
        var newOrder := FirstOrder(req, items[k].id);
        if newOrder.Some? {
          items := items[k := items[k].(order := newOrder.value)];
        }
        k := k + 1;
      }
      assert IdsOf(items) == IdsOf(old(items));
      r := Ok(|found|);
    }

    /** `remove`: fails when no row has the id; otherwise deletes the row whatever
        the media host answers, and returns the public id the host is asked to
        delete, present only for an image with a truthy public id. */
    method Remove(id: int) returns (r: Result<Option<string>, Thrown>)
      requires Valid()
      modifies this
      ensures Valid() && nextId == old(nextId)
      ensures r.Err? <==> id !in IdsOf(old(items))
      ensures r.Err? ==> items == old(items)
                         && r.error == NotAcceptable("Gallery item with ID " + IntToString(id) + " not found")
      ensures r.Ok? ==>
                var was := old(FindOrFail(id)).value;
                && items == RemoveId(old(items), id)
                && r.value == if was.galleryType == Image && IsTruthy(was.cloudinaryPublicId)
                              then was.cloudinaryPublicId else None
    {
      var found := FindOrFail(id);
      if found.Err? {
        return Err(found.error);
      }
      var item := found.value;
      var hostId: Option<string> := None;
      if item.galleryType == Image && IsTruthy(item.cloudinaryPublicId) {
        hostId := item.cloudinaryPublicId;
      }
      RemoveIdKeepsValid(items, id, nextId);
      items := RemoveId(items, id);
      r := Ok(hostId);
    }
  }

  function FindIn(items: seq<GalleryItem>, id: int): (r: Result<GalleryItem, Thrown>)
    ensures r.Ok? <==> id in IdsOf(items)
    ensures r.Ok? ==> r.value in items && r.value.id == id
    ensures r.Err? ==> r.error == NotAcceptable("Gallery item with ID " + IntToString(id) + " not found")
  {
    if items == [] then Err(NotAcceptable("Gallery item with ID " + IntToString(id) + " not found"))
    else if items[0].id == id then Ok(items[0])
    else
      assert IdsOf(items) == [items[0].id] + IdsOf(items[1..]);
      FindIn(items[1..], id)
  }

  /** The table without the row that has the id. */
  function RemoveId(items: seq<GalleryItem>, id: int): (r: seq<GalleryItem>)
    ensures id !in IdsOf(r)
    ensures forall x :: x in items && x.id != id ==> x in r
    ensures forall x :: x in r ==> x in items
  {
    if items == [] then []
    else
      var rest := RemoveId(items[1..], id);
      assert forall x :: x in items ==> x == items[0] || x in items[1..];
      if items[0].id == id then rest
      else
        var r := [items[0]] + rest;
        assert IdsOf(r) == [items[0].id] + IdsOf(rest);
        assert forall x :: x in r ==> x == items[0] || x in rest;
        r
  }

  /** The rows after the first of a table with distinct ids have distinct ids,
      none of them the first row's, and they hold every id but the first. */
  lemma DistinctTail(items: seq<GalleryItem>)
    requires items != [] && DistinctInts(IdsOf(items))
    ensures DistinctInts(IdsOf(items[1..]))
    ensures forall k :: 0 <= k < |items| - 1 ==> items[1..][k].id != items[0].id
    ensures items[0].id !in IdsOf(items[1..])
    ensures SetOf(IdsOf(items)) == SetOf(IdsOf(items[1..])) + {items[0].id}
  {
    var rest := items[1..];
    var ids, restIds := IdsOf(items), IdsOf(rest);
    assert ids == [items[0].id] + restIds;
    forall j, k | 0 <= j < k < |rest| ensures restIds[j] != restIds[k] {
      assert restIds[j] == ids[j + 1] && restIds[k] == ids[k + 1];
    }
    forall k | 0 <= k < |rest| ensures rest[k].id != items[0].id {
      assert ids[k + 1] == rest[k].id;
    }
    SetOfCons(items[0].id, restIds);
  }

  /** A row whose id is new to a table with distinct ids keeps them distinct
      when put in front. */
  lemma DistinctCons(x: GalleryItem, r: seq<GalleryItem>)
    requires DistinctInts(IdsOf(r)) && forall k :: 0 <= k < |r| ==> r[k].id != x.id
    ensures DistinctInts(IdsOf([x] + r))
  {
    var s := [x] + r;
    forall j, k | 0 <= j < k < |s| ensures IdsOf(s)[j] != IdsOf(s)[k] {
      assert s[k] == r[k - 1];
      if j > 0 {
        assert s[j] == r[j - 1] && IdsOf(r)[j - 1] != IdsOf(r)[k - 1];
      }
    }
  }

  lemma {:induction false} RemoveIdKeepsValid(items: seq<GalleryItem>, id: int, nextId: int)
    requires DistinctInts(IdsOf(items)) && forall k :: 0 <= k < |items| ==> items[k].id < nextId
    ensures DistinctInts(IdsOf(RemoveId(items, id)))
    ensures forall k :: 0 <= k < |RemoveId(items, id)| ==> RemoveId(items, id)[k].id < nextId
    decreases |items|
  {
    if items != [] {
      var rest := items[1..];
      DistinctTail(items);
      RemoveIdKeepsValid(rest, id, nextId);
      var r := RemoveId(rest, id);
      if items[0].id != id {
        assert RemoveId(items, id) == [items[0]] + r;
        forall k | 0 <= k < |r| ensures r[k].id != items[0].id {
          assert r[k] in rest;
        }
        DistinctCons(items[0], r);
      }
    }
  }
}
