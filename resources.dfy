/** The resource graph of scuzzie/resources.py: a Comic holds Volumes, a Volume
    holds Pages, each container keeps an order list of slugs next to a map from
    slug to entity, and a Page points back to the Volume it was added to. */
module Resources {
  import opened Wrappers
  import opened Paths
  import opened Slugs
  import opened Errors
  import opened Registry

  /** Value snapshots of the graph: what the codec reads and writes. `home` is
      the path of the volume the page points back to, if it has one. */
  datatype PageData = PageData(path: Option<Path>, title: string, image: Path, home: Option<Path>)
  datatype VolumeData = VolumeData(
    path: Option<Path>, title: string, image: Path,
    pageSlugs: seq<string>, pages: map<string, PageData>)
  {
    /** The snapshot after a successful `add_page` of p under slug. */
    function WithPage(slug: string, p: PageData): (r: VolumeData)
      ensures r.pages.Keys == pages.Keys + {slug} && r.pages[slug] == p
      ensures forall k | k in pages && k != slug :: r.pages[k] == pages[k]
      ensures r.pageSlugs == AddSlug(pageSlugs, slug)
      ensures r.path == path && r.title == title && r.image == image
    {
      this.(pageSlugs := AddSlug(pageSlugs, slug), pages := pages[slug := p])
    }
  }

  datatype ComicData = ComicData(
    path: Option<Path>, name: string, placeholder: Path,
    volumeSlugs: seq<string>, volumes: map<string, VolumeData>)
  {
    /** The snapshot after a successful `add_volume` of v under slug. */
    function WithVolume(slug: string, v: VolumeData): (r: ComicData)
      ensures r.volumes.Keys == volumes.Keys + {slug} && r.volumes[slug] == v
      ensures forall k | k in volumes && k != slug :: r.volumes[k] == volumes[k]
      ensures r.volumeSlugs == AddSlug(volumeSlugs, slug)
      ensures r.path == path && r.name == name && r.placeholder == placeholder
    {
      this.(volumeSlugs := AddSlug(volumeSlugs, slug), volumes := volumes[slug := v])
    }
  }

  function PageUrl(volumeSlug: string, pageSlug: string): string {
    "/volumes/" + volumeSlug + "/pages/" + pageSlug + ".html"
  }

  function VolumeUrl(slug: string): string {
    "/volumes/" + slug + ".html"
  }

  /** The text before the first "/" of s (all of s when it has none). */
  function UpToSlash(s: string): (r: string)
    ensures |r| <= |s| && r == s[..|r|]
  {
    if s == [] || s[0] == '/' then "" else [s[0]] + UpToSlash(s[1..])
  }

  lemma {:induction false} UpToSlashOf(a: string, rest: string)
    requires '/' !in a
    ensures UpToSlash(a + "/" + rest) == a
  {
    if a != [] {
      assert (a + "/" + rest)[1..] == a[1..] + "/" + rest;
      UpToSlashOf(a[1..], rest);
    }
  }

  /** A page URL names its volume slug and its page slug unambiguously, as long
      as the volume slug has no "/" (slugs never do): two pages have the same
      URL only when both slugs agree. */
  lemma PageUrlInjective(a: string, b: string, c: string, d: string)
    requires '/' !in a && '/' !in c
    requires PageUrl(a, b) == PageUrl(c, d)
    ensures a == c && b == d
  {
    var u := PageUrl(a, b);
    assert u[9..] == a + "/" + ("pages/" + b + ".html");
    assert u[9..] == c + "/" + ("pages/" + d + ".html");
    UpToSlashOf(a, "pages/" + b + ".html");
    UpToSlashOf(c, "pages/" + d + ".html");
    assert "/volumes/" + a + "/pages/" + b + ".html" == ("/volumes/" + a + "/pages/") + b + ".html";
    var n := |"/volumes/" + a + "/pages/"|;
    assert u[n..|u| - 5] == b;
    assert u[n..|u| - 5] == d;
  }

  /** A volume URL is never the URL of a page. */
  lemma VolumeUrlIsNotAPageUrl(s: string, a: string, b: string)
    requires '/' !in s
    ensures VolumeUrl(s) != PageUrl(a, b)
  {
    var u, w := VolumeUrl(s), PageUrl(a, b);
    assert u[9..] == s + ".html";
    assert forall i | 9 <= i < |u| :: u[i] != '/' by {
      forall i | 9 <= i < |u| ensures u[i] != '/' {
        assert u[i] == (s + ".html")[i - 9];
      }
    }
    assert w[9 + |a|] == '/';
  }

  /** A slug has no "/". */
  lemma SlugHasNoSlash(title: string)
    ensures '/' !in Slugify(title)
  {
    SlugShape(title);
  }

  class Page {
    const path: Option<Path>
    const title: string
    const slug: string := Slugify(title)
    const image: Path
    var volume: Volume?

    constructor (path: Option<Path>, title: string, image: Path)
      ensures this.path == path && this.title == title && this.image == image
      ensures volume == null
    {
      this.path := path;
      this.title := title;
      this.image := image;
      this.volume := null;
    }

    /** `Page.url`: only a page that has been added to a volume has a URL. */
    function Url(): (r: Result<string, Error>)
      reads this
      ensures r.Failure? <==> volume == null
      ensures r.Failure? ==> r.error == ScuzzieError(PageNotInVolume)
      ensures r.Success? ==> r.value == PageUrl(volume.slug, slug)
    {
      if volume == null then Failure(ScuzzieError(PageNotInVolume))
      else Success(PageUrl(volume.slug, slug))
    }

    /** Two distinct pages of one volume, both pointing back to it, have
        distinct URLs. */
    static lemma UrlsDistinct(v: Volume, k1: string, k2: string)
      requires v.Valid() && k1 in v.pages && k2 in v.pages && k1 != k2
      requires v.pages[k1].volume == v && v.pages[k2].volume == v
      ensures v.pages[k1].Url() != v.pages[k2].Url()
    {
      SlugHasNoSlash(v.title);
      if v.pages[k1].Url() == v.pages[k2].Url() {
        PageUrlInjective(v.slug, k1, v.slug, k2);
      }
    }

    ghost function Data(): PageData
      reads this
    {
      PageData(path, title, image, if volume == null then None else volume.path)
    }
  }

  class Volume {
    const path: Option<Path>
    const title: string
    const slug: string := Slugify(title)
    const image: Path
    var pageSlugs: seq<string>
    var pages: map<string, Page>

    constructor (path: Option<Path>, title: string, image: Path, pageSlugs: seq<string>)
      ensures this.path == path && this.title == title && this.image == image
      ensures this.pageSlugs == pageSlugs && pages == map[]
      ensures Valid()
    {
      this.path := path;
      this.title := title;
      this.image := image;
      this.pageSlugs := pageSlugs;
      this.pages := map[];
    }

    /** Every page is stored under its own slug, and every stored slug is listed. */
    ghost predicate Valid()
      reads this
    {
      && (forall k | k in pages :: pages[k].slug == k)
      && Listed(pageSlugs, pages.Keys)
    }

    static ghost function PagesData(ps: map<string, Page>): (r: map<string, PageData>)
      reads ps.Values
      ensures r.Keys == ps.Keys
    {
      map k | k in ps :: ps[k].Data()
    }

    static twostate lemma PagesDataFramed(ps: map<string, Page>)
      requires unchanged(ps.Values)
      ensures PagesData(ps) == old(PagesData(ps))
    {
    }

    static lemma PagesDataUpdate(ps: map<string, Page>, k: string, p: Page)
      ensures PagesData(ps[k := p]) == PagesData(ps)[k := p.Data()]
    {
    }

    ghost function Data(): VolumeData
      reads this, pages.Values
    {
      VolumeData(path, title, image, pageSlugs, PagesData(pages))
    }

    twostate lemma DataFramed()
      requires unchanged(this) && unchanged(old(pages.Values))
      ensures Data() == old(Data())
    {
      PagesDataFramed(pages);
    }

    /** `Volume.url`: only a volume with a path has a URL. */
    function Url(): (r: Result<string, Error>)
      ensures r.Failure? <==> path.None?
      ensures r.Failure? ==> r.error == ScuzzieError(VolumeWithoutPath)
      ensures r.Success? ==> r.value == VolumeUrl(slug)
    {
      if path.None? then Failure(ScuzzieError(VolumeWithoutPath))
      else Success(VolumeUrl(slug))
    }

    /** `Volume.latest_page`: None for an empty list, otherwise the page of the
        last listed slug (a KeyError when that slug has no page). */
    function LatestPage(): (r: Result<Option<Page>, Error>)
      reads this
      ensures r == Success(None) <==> pageSlugs == []
      ensures pageSlugs != [] && pageSlugs[|pageSlugs| - 1] in pages ==>
        r == Success(Some(pages[pageSlugs[|pageSlugs| - 1]]))
      ensures pageSlugs != [] && pageSlugs[|pageSlugs| - 1] !in pages ==>
        r == Failure(KeyError(pageSlugs[|pageSlugs| - 1]))
    {
      if pageSlugs == [] then Success(None)
      else
        var last := pageSlugs[|pageSlugs| - 1];
        if last in pages then Success(Some(pages[last])) else Failure(KeyError(last))
    }

    /** `Volume.each_page`, consumed to the end. */
    method EachPage() returns (r: Result<seq<Page>, Error>)
      ensures r == Each(pageSlugs, pages)
    {
      var yielded: seq<Page> := [];
      var i := 0;
      while i < |pageSlugs|
        invariant 0 <= i <= |pageSlugs|
        invariant forall j | 0 <= j < i :: pageSlugs[j] in pages
        invariant |yielded| == i && forall j | 0 <= j < i :: yielded[j] == pages[pageSlugs[j]]
      {
        var slug := pageSlugs[i];
        if slug !in pages {
          return Failure(KeyError(slug));
        }
        yielded := yielded + [pages[slug]];
        i := i + 1;
      }
      assert Each(pageSlugs, pages).value == yielded;
      return Success(yielded);
    }

    /** `Volume.add_page`. A slug that is already a key fails before anything
        changes; otherwise the page points back here, is stored under its slug,
        and the slug is appended to the order list only if it was not listed. */
    method AddPage(page: Page) returns (r: Outcome<Error>)
      modifies this, page
      ensures old(page.slug in pages) ==>
        r == Fail(ScuzzieError(AlreadyExists(page.slug))) && unchanged(this) && unchanged(page)
      ensures old(page.slug !in pages) ==>
        && r == Pass
        && page.volume == this
        && pages == old(pages)[page.slug := page]
        && pageSlugs == AddSlug(old(pageSlugs), page.slug)
      ensures old(Valid()) ==> Valid()
      ensures old(NoDup(pageSlugs)) ==> NoDup(pageSlugs)
      ensures old(Valid()) && r.Pass? ==>
        Data() == old(Data()).WithPage(page.slug, page.Data())
    {
      if page.slug in pages {
        return Fail(ScuzzieError(AlreadyExists(page.slug)));
      }
      ghost var before := Data();
      ghost var wasValid := Valid();
      AddSlugPreserves(pageSlugs, pages.Keys, page.slug);
      page.volume := this;
      if page.slug !in pageSlugs {
        pageSlugs := pageSlugs + [page.slug];
      }
      pages := pages[page.slug := page];
      r := Pass;
      if wasValid {
        assert page !in old(pages.Values);
        PagesDataFramed(old(pages));
        PagesDataUpdate(old(pages), page.slug, page);
      }
    }
  }

  class Comic {
    var path: Option<Path>
    const name: string
    const placeholder: Path
    var volumeSlugs: seq<string>
    var volumes: map<string, Volume>

    constructor (path: Option<Path>, name: string, placeholder: Path, volumeSlugs: seq<string>)
      ensures this.path == path && this.name == name && this.placeholder == placeholder
      ensures this.volumeSlugs == volumeSlugs && volumes == map[]
      ensures Valid()
    {
      this.path := path;
      this.name := name;
      this.placeholder := placeholder;
      this.volumeSlugs := volumeSlugs;
      this.volumes := map[];
    }

    /** Every volume is stored under its own slug, and every stored slug is listed. */
    ghost predicate Valid()
      reads this
    {
      && (forall k | k in volumes :: volumes[k].slug == k)
      && Listed(volumeSlugs, volumes.Keys)
    }

    /** `Comic.latest_volume`: None for an empty list, otherwise the volume of
        the last listed slug (a KeyError when that slug has no volume). */
    function LatestVolume(): (r: Result<Option<Volume>, Error>)
      reads this
      ensures r == Success(None) <==> volumeSlugs == []
      ensures volumeSlugs != [] && volumeSlugs[|volumeSlugs| - 1] in volumes ==>
        r == Success(Some(volumes[volumeSlugs[|volumeSlugs| - 1]]))
      ensures volumeSlugs != [] && volumeSlugs[|volumeSlugs| - 1] !in volumes ==>
        r == Failure(KeyError(volumeSlugs[|volumeSlugs| - 1]))
    {
      if volumeSlugs == [] then Success(None)
      else
        var last := volumeSlugs[|volumeSlugs| - 1];
        if last in volumes then Success(Some(volumes[last])) else Failure(KeyError(last))
    }

    /** `Comic.each_volume`, consumed to the end. */
    method EachVolume() returns (r: Result<seq<Volume>, Error>)
      ensures r == Each(volumeSlugs, volumes)
    {
      var yielded: seq<Volume> := [];
      var i := 0;
      while i < |volumeSlugs|
        invariant 0 <= i <= |volumeSlugs|
        invariant forall j | 0 <= j < i :: volumeSlugs[j] in volumes
        invariant |yielded| == i && forall j | 0 <= j < i :: yielded[j] == volumes[volumeSlugs[j]]
      {
        var slug := volumeSlugs[i];
        if slug !in volumes {
          return Failure(KeyError(slug));
        }
        yielded := yielded + [volumes[slug]];
        i := i + 1;
      }
      assert Each(volumeSlugs, volumes).value == yielded;
      return Success(yielded);
    }

    /** `Comic.add_volume`: as `Volume.add_page` one level up, without any
        back-link from the volume to the comic. */
    method AddVolume(volume: Volume) returns (r: Outcome<Error>)
      modifies this
      ensures old(volume.slug in volumes) ==>
        r == Fail(ScuzzieError(AlreadyExists(volume.slug))) && unchanged(this)
      ensures old(volume.slug !in volumes) ==>
        && r == Pass
        && volumes == old(volumes)[volume.slug := volume]
        && volumeSlugs == AddSlug(old(volumeSlugs), volume.slug)
        && path == old(path)
      ensures old(Valid()) ==> Valid()
      ensures old(NoDup(volumeSlugs)) ==> NoDup(volumeSlugs)
      ensures old(Valid()) && r.Pass? ==>
        Data() == old(Data()).WithVolume(volume.slug, volume.Data())
    {
      if volume.slug in volumes {
        return Fail(ScuzzieError(AlreadyExists(volume.slug)));
      }
      ghost var before := Data();
      ghost var pagesBefore := PageObjects(volumes);
      ghost var wasValid := Valid();
      AddSlugPreserves(volumeSlugs, volumes.Keys, volume.slug);
      if volume.slug !in volumeSlugs {
        volumeSlugs := volumeSlugs + [volume.slug];
      }
      volumes := volumes[volume.slug := volume];
      r := Pass;
      if wasValid {
        assert volume !in old(volumes.Values);
        VolumesDataFramed(old(volumes));
        VolumesDataUpdate(old(volumes), volume.slug, volume);
      }
    }

    /** `Comic.create_volume`: a virtual volume (no path, no pages) added to
        this comic. */
    method CreateVolume(title: string, image: Path) returns (r: Result<Volume, Error>)
      modifies this
      ensures r.Failure? <==> old(Slugify(title) in volumes)
      ensures r.Failure? ==> r.error == ScuzzieError(AlreadyExists(Slugify(title))) && unchanged(this)
      ensures r.Success? ==>
        && fresh(r.value)
        && r.value.path == None && r.value.title == title && r.value.image == image
        && r.value.pageSlugs == [] && r.value.pages == map[]
        && volumes == old(volumes)[Slugify(title) := r.value]
        && volumeSlugs == AddSlug(old(volumeSlugs), Slugify(title))
        && path == old(path)
      ensures old(Valid()) ==> Valid()
      ensures old(NoDup(volumeSlugs)) ==> NoDup(volumeSlugs)
      ensures old(Valid()) && r.Success? ==>
        Data() == old(Data()).WithVolume(Slugify(title), r.value.Data())
    {
      ghost var before := Data();
      var volume := new Volume(None, title, image, []);
      VolumesDataFramed(volumes);
      assert Data() == before;
      var added := AddVolume(volume);
      if added.Fail? {
        return Failure(added.error);
      }
      return Success(volume);
    }

    /** `Comic.create_page`: a virtual page (no path) whose image falls back to
        the comic's placeholder, added to the given volume. */
    method CreatePage(title: string, image: Option<Path>, volume: Volume) returns (r: Result<Page, Error>)
      modifies volume
      ensures r.Failure? <==> old(Slugify(title) in volume.pages)
      ensures r.Failure? ==> r.error == ScuzzieError(AlreadyExists(Slugify(title))) && unchanged(volume)
      ensures r.Success? ==>
        && fresh(r.value)
        && r.value.path == None && r.value.title == title
        && r.value.image == image.GetOr(placeholder)
        && r.value.volume == volume
        && volume.pages == old(volume.pages)[Slugify(title) := r.value]
        && volume.pageSlugs == AddSlug(old(volume.pageSlugs), Slugify(title))
    {
      var page := new Page(None, title, if image.Some? then image.value else placeholder);
      var added := volume.AddPage(page);
      if added.Fail? {
        return Failure(added.error);
      }
      return Success(page);
    }

    /** The pages held by the volumes of vs. */
    static ghost function PageObjects(vs: map<string, Volume>): set<Page>
      reads vs.Values
    {
      set v, p | v in vs.Values && p in v.pages.Values :: p
    }

    static ghost function VolumesData(vs: map<string, Volume>): (r: map<string, VolumeData>)
      reads vs.Values, PageObjects(vs)
      ensures r.Keys == vs.Keys
    {
      map k | k in vs :: vs[k].Data()
    }

    static twostate lemma VolumesDataFramed(vs: map<string, Volume>)
      requires unchanged(vs.Values) && unchanged(old(PageObjects(vs)))
      ensures VolumesData(vs) == old(VolumesData(vs))
    {
    }

    static lemma VolumesDataUpdate(vs: map<string, Volume>, k: string, v: Volume)
      ensures VolumesData(vs[k := v]) == VolumesData(vs)[k := v.Data()]
    {
    }

    ghost function Data(): ComicData
      reads this, volumes.Values, PageObjects(volumes)
    {
      ComicData(path, name, placeholder, volumeSlugs, VolumesData(volumes))
    }
  }
}
