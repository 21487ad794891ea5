/**
 * The URL list `loadCriticalAssets` (js/main.js) preloads: the home image, the
 * about image, the images of the first three projects and the previews of the
 * first three certificate links, each only when present.
 */
module CriticalAssets {
  import opened Wrappers
  import opened SiteData
  import opened DriveLink

  /** `xs.slice(0, 3)`. */
  function FirstThree<T>(xs: seq<T>): (r: seq<T>)
    ensures |r| <= 3 && r <= xs
    ensures |xs| >= 3 ==> |r| == 3
    ensures |xs| < 3 ==> r == xs
  {
    if |xs| <= 3 then xs else xs[..3]
  }

  /** The value of an optional string field, when it is truthy. */
  function FieldUrl(field: Option<string>): (urls: seq<string>)
    ensures Truthy(field) ==> urls == [field.value]
    ensures !Truthy(field) ==> urls == []
  {
    if field.Some? && field.value != "" then [field.value] else []
  }

  /** `data.home?.image`, when truthy. */
  function HomeUrls(home: Option<Home>): (urls: seq<string>)
  {
    if home.Some? then FieldUrl(home.value.image) else []
  }

  /** `data.about?.image`, when truthy. */
  function AboutUrls(about: Option<About>): (urls: seq<string>)
  {
    if about.Some? then FieldUrl(about.value.image) else []
  }

  /** The truthy `image` fields of the projects, in order. */
  function ProjectUrls(projects: seq<Project>): (urls: seq<string>)
    ensures |urls| <= |projects|
    ensures forall u :: u in urls ==> u != "" && exists p :: p in projects && p.image == Some(u)
  {
    if projects == [] then []
    else FieldUrl(projects[0].image) + ProjectUrls(projects[1..])
  }

  /** The Drive previews of the truthy `link` fields of the certificates, in order. */
  function CertificateUrls(certificates: seq<Certificate>): (urls: seq<string>)
    ensures |urls| <= |certificates|
    ensures forall u :: u in urls ==>
      exists c :: c in certificates && Truthy(c.link) && u == DrivePreview(c.link.value)
  {
    if certificates == [] then []
    else
      (if Truthy(certificates[0].link) then [DrivePreview(certificates[0].link.value)] else [])
      + CertificateUrls(certificates[1..])
  }

  /**
   * The list `loadCriticalAssets` builds: home image, about image, then up to
   * three project images and up to three certificate previews.
   */
  function CriticalUrls(data: Content): (urls: seq<string>)
    ensures |urls| <= 8
  {
    HomeUrls(data.home) + AboutUrls(data.about)
    + (if data.projects.Some? then ProjectUrls(FirstThree(data.projects.value)) else [])
    + (if data.certificates.Some? then CertificateUrls(FirstThree(data.certificates.value)) else [])
  }

  /** Collecting project images distributes over concatenation. */
  lemma {:induction false} ProjectUrlsAppend(a: seq<Project>, b: seq<Project>)
    ensures ProjectUrls(a + b) == ProjectUrls(a) + ProjectUrls(b)
  {
    if a != [] {
      assert (a + b)[1..] == a[1..] + b;
      ProjectUrlsAppend(a[1..], b);
    } else {
      assert a + b == b;
    }
  }

  /** Collecting certificate previews distributes over concatenation. */
  lemma {:induction false} CertificateUrlsAppend(a: seq<Certificate>, b: seq<Certificate>)
    ensures CertificateUrls(a + b) == CertificateUrls(a) + CertificateUrls(b)
  {
    if a != [] {
      assert (a + b)[1..] == a[1..] + b;
      CertificateUrlsAppend(a[1..], b);
    } else {
      assert a + b == b;
    }
  }

  /** A project without a truthy image adds nothing; one with an image adds it. */
  lemma ProjectUrlsOne(p: Project)
    ensures ProjectUrls([p]) == FieldUrl(p.image)
  {
    assert [p][1..] == [];
  }

  /** A certificate adds the preview of its link, or nothing when the link is missing. */
  lemma CertificateUrlsOne(c: Certificate)
    ensures Truthy(c.link) ==> CertificateUrls([c]) == [DrivePreview(c.link.value)]
    ensures !Truthy(c.link) ==> CertificateUrls([c]) == []
  {
    assert [c][1..] == [];
  }

  /**
   * When every project has an image, the project entries are exactly those
   * images, one per project, in order.
   */
  lemma {:induction false} ProjectUrlsAllPresent(projects: seq<Project>)
    requires forall i :: 0 <= i < |projects| ==> Truthy(projects[i].image)
    ensures |ProjectUrls(projects)| == |projects|
    ensures forall i :: 0 <= i < |projects| ==> projects[i].image == Some(ProjectUrls(projects)[i])
  {
    if projects != [] {
      ProjectUrlsAllPresent(projects[1..]);
    }
  }

  /**
   * When every certificate has a link, the certificate entries are exactly the
   * Drive previews of those links, one per certificate, in order.
   */
  lemma {:induction false} CertificateUrlsAllPresent(certificates: seq<Certificate>)
    requires forall i :: 0 <= i < |certificates| ==> Truthy(certificates[i].link)
    ensures |CertificateUrls(certificates)| == |certificates|
    ensures forall i :: 0 <= i < |certificates| ==>
      certificates[i].link.Some? &&
      CertificateUrls(certificates)[i] == DrivePreview(certificates[i].link.value)
  {
    if certificates != [] {
      CertificateUrlsAllPresent(certificates[1..]);
    }
  }

  /** The home image, when present, comes first. */
  lemma HomeImageFirst(data: Content)
    requires data.home.Some? && Truthy(data.home.value.image)
    ensures CriticalUrls(data)[0] == data.home.value.image.value
  {
  }

  /**
   * The bound of eight is reached: with both images present and three
   * projects and three certificates, all with their fields, the list is the two
   * images, the three project images and the three previews, in that order.
   */
  lemma FullList(home: Home, about: About, projects: seq<Project>, certificates: seq<Certificate>)
    requires Truthy(home.image) && Truthy(about.image)
    requires |projects| >= 3 && forall i :: 0 <= i < 3 ==> Truthy(projects[i].image)
    requires |certificates| >= 3 && forall i :: 0 <= i < 3 ==> Truthy(certificates[i].link)
    ensures var urls := CriticalUrls(Content(Some(home), Some(about), Some(projects), Some(certificates)));
      && |urls| == 8
      && home.image == Some(urls[0]) && about.image == Some(urls[1])
      && (forall i :: 0 <= i < 3 ==> projects[i].image == Some(urls[2 + i]))
      && (forall i :: 0 <= i < 3 ==>
            certificates[i].link.Some? && urls[5 + i] == DrivePreview(certificates[i].link.value))
  {
    var ps := FirstThree(projects);
    var cs := FirstThree(certificates);
    ProjectUrlsAllPresent(ps);
    CertificateUrlsAllPresent(cs);
    WithBothImages(home, about, projects, certificates);
    var pu := ProjectUrls(ps);
    var cu := CertificateUrls(cs);
    var urls := [home.image.value, about.image.value] + pu + cu;
    forall i | 0 <= i < 3
      ensures projects[i].image == Some(urls[2 + i])
    {
      assert ps[i] == projects[i];
      assert urls[2 + i] == pu[i];
    }
    forall i | 0 <= i < 3
      ensures certificates[i].link.Some? && urls[5 + i] == DrivePreview(certificates[i].link.value)
    {
      assert cs[i] == certificates[i];
      assert urls[5 + i] == cu[i];
    }
  }

  /** The list for content with a home image, an about image, projects and certificates. */
  lemma WithBothImages(home: Home, about: About, projects: seq<Project>, certificates: seq<Certificate>)
    requires Truthy(home.image) && Truthy(about.image)
    ensures CriticalUrls(Content(Some(home), Some(about), Some(projects), Some(certificates))) ==
      [home.image.value, about.image.value] + ProjectUrls(FirstThree(projects))
      + CertificateUrls(FirstThree(certificates))
  {
  }

  /** Missing content sections contribute nothing. */
  lemma EmptyContent()
    ensures CriticalUrls(Content(None, None, None, None)) == []
  {
  }
}
