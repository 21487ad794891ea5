/**
 * `googleDrivePreview` (js/main.js): rewrites a Google Drive sharing link into
 * a direct thumbnail URL so that a certificate image can be shown inline.
 * Every other link is returned as it is.
 */
module DriveLink {
  import opened Strings

  const ThumbnailPrefix: string := "https://drive.google.com/thumbnail?id="
  const ThumbnailSuffix: string := "&sz=w1000"

  /** The direct thumbnail URL of the Drive file `id`, 1000 pixels wide. */
  function Thumbnail(id: string): (url: string)
  {
    ThumbnailPrefix + id + ThumbnailSuffix
  }

  /**
   * The two early returns: a falsy link, `#`, a mail link, a link that is not
   * on Drive, or a Drive folder link.
   */
  predicate IsPassThrough(url: string)
    ensures !IsPassThrough(url) ==>
      url != "#" && Contains(url, "drive.google.com") && |url| >= |"drive.google.com"|
  {
    || url == ""
    || url == "#"
    || Contains(url, "mailto:")
    || !Contains(url, "drive.google.com")
    || Contains(url, "/folders/")
  }

  /**
   * The `fileId` the source computes: `url.split('id=')[1].split('&')[0]` when
   * the text `id=` occurs anywhere in the link (also inside a parameter such as
   * `ouid=`), otherwise `url.split('/d/')[1].split('/')[0]` when it has a `/d/`
   * path segment, otherwise the empty string. Each `split`
   * is called only after the matching `includes` succeeded, so index 1 always
   * exists: the `try`/`catch` around it never catches anything.
   */
  function FileId(url: string): (id: string)
    ensures Contains(url, "id=") ==> id <= After(url, "id=") && '&' !in id
    ensures !Contains(url, "id=") && Contains(url, "/d/") ==> id <= After(url, "/d/") && '/' !in id
    ensures !Contains(url, "id=") && !Contains(url, "/d/") ==> id == ""
  {
    if Contains(url, "id=") then
      var rest := SplitSecond(url, "id=");
      SplitFirstLacksChar(rest, '&');
      SplitFirst(rest, "&")
    else if Contains(url, "/d/") then
      var rest := SplitSecond(url, "/d/");
      SplitFirstLacksChar(rest, '/');
      SplitFirst(rest, "/")
    else ""
  }

  /** `googleDrivePreview(url)`. */
  function DrivePreview(url: string): (r: string)
    ensures IsPassThrough(url) ==> r == url
    ensures r != url ==> !IsPassThrough(url) && FileId(url) != "" && r == Thumbnail(FileId(url))
    ensures !IsPassThrough(url) && FileId(url) != "" ==> r == Thumbnail(FileId(url))
    ensures !IsPassThrough(url) && FileId(url) == "" ==> r == url
  {
    if IsPassThrough(url) then url
    else
      var id := FileId(url);
      if id != "" then Thumbnail(id) else url
  }

  /** Every link that takes one of the early returns comes back unchanged. */
  lemma PassThroughUnchanged(url: string)
    requires IsPassThrough(url)
    ensures DrivePreview(url) == url
  {
  }

  /**
   * The text `split('id=')[1].split('&')[0]` picks out of what follows the first
   * `id=`: a prefix without `&` inside which no further `id=` starts, ending
   * where `rest` ends, at a `&`, or at the next `id=`, whichever comes first.
   */
  lemma IdParameterText(rest: string)
    ensures var id := SplitFirst(SplitFirst(rest, "id="), "&");
      && id <= rest
      && (forall j :: 0 <= j < |id| ==> id[j] != '&' && !OccursAt(rest, "id=", j))
      && (|id| == |rest| || rest[|id|] == '&' || OccursAt(rest, "id=", |id|))
  {
    var a := SplitFirst(rest, "id=");
    var id := SplitFirst(a, "&");
    forall j | 0 <= j < |id|
      ensures id[j] != '&'
    {
      OccursAtSingle(a, '&', j);
    }
    if |id| < |a| {
      assert OccursAt(a, "&", |id|);
      assert a[|id|..|id| + 1][0] == rest[|id|];
    } else if |id| < |rest| {
      assert OccursAt(rest, "id=", |a|);
    }
  }

  /**
   * A Drive link in which the text `id=` first occurs at `k`, as a parameter or
   * inside one such as `ouid=`: the id is the text IdParameterText describes,
   * taken from what follows that `id=`, and the link is rewritten unless that
   * text is empty. This holds
   * whether or not the link also has a `/d/` segment: the `id=` form is tried first.
   */
  lemma IdParameterLink(url: string, k: nat)
    requires !IsPassThrough(url)
    requires OccursAt(url, "id=", k) && forall j :: 0 <= j < k ==> !OccursAt(url, "id=", j)
    ensures var id := SplitFirst(SplitFirst(url[k + 3..], "id="), "&");
      && FileId(url) == id
      && DrivePreview(url) == (if id == "" then url else Thumbnail(id))
  {
    assert Contains(url, "id=");
    assert After(url, "id=") == url[k + 3..];
  }

  /**
   * In a link with a `/d/` segment, first at `k`, and no `id=` parameter, the id
   * is the text between that `/d/` and the next `/` (splitting at the second
   * `/d/` first, as the source does, changes nothing, because that `/d/` starts
   * with `/`).
   */
  lemma PathSegmentId(url: string, k: nat)
    requires !Contains(url, "id=")
    requires OccursAt(url, "/d/", k) && forall j :: 0 <= j < k ==> !OccursAt(url, "/d/", j)
    ensures FileId(url) == SplitFirst(url[k + 3..], "/")
  {
    var rest := url[k + 3..];
    assert Contains(url, "/d/");
    assert After(url, "/d/") == rest;
    var c := SplitFirst(rest, "/");
    forall j | 0 <= j < |c|
      ensures !OccursAt(rest, "/d/", j)
    {
      OccursAtChar(rest, "/d/", j, 0);
      OccursAtSingle(rest, '/', j);
    }
    SplitFirstNested(rest, "/d/", "/");
  }

  /**
   * A Drive file link with a `/d/` segment, first at `k`, and no `id=` parameter
   * is rewritten with the path segment after that `/d/`, unless it is empty.
   */
  lemma PathSegmentLink(url: string, k: nat)
    requires !IsPassThrough(url) && !Contains(url, "id=")
    requires OccursAt(url, "/d/", k) && forall j :: 0 <= j < k ==> !OccursAt(url, "/d/", j)
    ensures var id := SplitFirst(url[k + 3..], "/");
      DrivePreview(url) == (if id == "" then url else Thumbnail(id))
  {
    PathSegmentId(url, k);
  }

  /** A link with neither an `id=` parameter nor a `/d/` segment is never rewritten. */
  lemma NoIdLinkUnchanged(url: string)
    requires !Contains(url, "id=") && !Contains(url, "/d/")
    ensures DrivePreview(url) == url
  {
  }

  /** In `a + "id=" + b` the first `id=` is the one after `a` when `a` has none. */
  lemma FirstIdParameter(a: string, b: string)
    requires !Contains(a, "id=")
    ensures var s := a + "id=" + b;
      OccursAt(s, "id=", |a|) && forall j :: 0 <= j < |a| ==> !OccursAt(s, "id=", j)
  {
    var s := a + "id=" + b;
    OccursBetween(a, "id=", b);
    forall j | 0 <= j < |a|
      ensures !OccursAt(s, "id=", j)
    {
      if j + 3 <= |a| {
        assert s == a + ("id=" + b);
        OccursInPrefix(a, "id=" + b, "id=", j);
      } else {
        // an occurrence would run into the `i` right after `a`
        OccursAtChar(s, "id=", j, |a| - j);
        assert s[|a|] == 'i';
      }
    }
  }

  /** No `id=` starts before the `&` that follows a text without `id=`. */
  lemma NoIdParameterBeforeAmpersand(x: string, y: string)
    requires !Contains(x, "id=")
    ensures forall j :: 0 <= j <= |x| ==> !OccursAt(x + "&" + y, "id=", j)
  {
    var s := x + "&" + y;
    assert s == x + ("&" + y);
    assert s[|x|] == '&';
    forall j | 0 <= j <= |x|
      ensures !OccursAt(s, "id=", j)
    {
      if j + 3 <= |x| {
        OccursInPrefix(x, "&" + y, "id=", j);
      } else {
        OccursAtChar(s, "id=", j, |x| - j);
      }
    }
  }

  /** `id=` cannot occur across a `&`. */
  lemma NoIdParameterAcrossAmpersand(x: string, y: string)
    requires !Contains(x, "id=") && !Contains(y, "id=")
    ensures !Contains(x + "&" + y, "id=")
  {
    NoIdParameterBeforeAmpersand(x, y);
    forall j | j > |x|
      ensures !OccursAt(x + "&" + y, "id=", j)
    {
      OccursInSuffix(x + "&", y, "id=", j);
    }
  }

  /**
   * A thumbnail URL is a fixed point of the rewrite when its id is non-empty and
   * holds neither `&` nor `id=`: previewing an already previewed link gives the
   * same link back.
   */
  lemma ThumbnailIsFixedPoint(id: string)
    requires id != ""
    requires '&' !in id
    requires !Contains(id, "id=")
    ensures DrivePreview(Thumbnail(id)) == Thumbnail(id)
  {
    ThumbnailFileId(id);
  }

  /** The file id of a thumbnail URL whose id holds neither `&` nor `id=` is that id. */
  lemma ThumbnailFileId(id: string)
    requires '&' !in id
    requires !Contains(id, "id=")
    ensures FileId(Thumbnail(id)) == id
  {
    var head := "https://drive.google.com/thumbnail?";
    var tail := "sz=w1000";
    var rest := id + "&" + tail;
    var t := Thumbnail(id);
    assert t == head + "id=" + rest;
    MissingCharacter(head, "id=", 2);
    FirstIdParameter(head, rest);
    assert IndexOf(t, "id=").value == |head|;
    assert After(t, "id=") == rest by {
      assert t[|head| + 3..] == rest;
    }
    MissingCharacter(tail, "id=", 0);
    NoIdParameterAcrossAmpersand(id, tail);
    SplitFirstAbsent(rest, "id=");
    assert SplitSecond(t, "id=") == rest;
    assert rest == id + ['&'] + tail;
    SplitFirstAtChar(id, '&', tail);
  }

  /** An id taken from an `id=` parameter holds no further `id=`. */
  lemma ParameterIdHasNoIdParameter(url: string)
    requires !IsPassThrough(url) && Contains(url, "id=")
    ensures !Contains(FileId(url), "id=")
  {
    var id := FileId(url);
    var k := IndexOf(url, "id=").value;
    var rest := url[k + 3..];
    IdParameterLink(url, k);
    IdParameterText(rest);
    assert id == rest[..|id|];
    forall j | 0 <= j
      ensures !OccursAt(id, "id=", j)
    {
      OccursInSlice(rest, 0, |id|, "id=", j);
    }
  }

  /** A piece cut out of a link without `id=` holds no `id=` either. */
  lemma PieceHasNoIdParameter(url: string, m: nat, piece: string)
    requires m <= |url| && piece <= url[m..] && !Contains(url, "id=")
    ensures !Contains(piece, "id=")
  {
    assert piece == url[m..m + |piece|];
    forall j | 0 <= j
      ensures !OccursAt(piece, "id=", j)
    {
      OccursInSlice(url, m, m + |piece|, "id=", j);
    }
  }

  /** An id cut out of a link without `id=` holds no `id=` either. */
  lemma SegmentIdHasNoIdParameter(url: string)
    requires !IsPassThrough(url) && !Contains(url, "id=") && Contains(url, "/d/")
    ensures !Contains(FileId(url), "id=")
  {
    var k := IndexOf(url, "/d/").value;
    PathSegmentId(url, k);
    PieceHasNoIdParameter(url, k + 3, FileId(url));
  }

  /**
   * Previewing twice is previewing once, unless the id taken from a `/d/` link
   * holds a `&` (the rewritten URL would then cut the id short at that `&`).
   * An id taken from an `id=` parameter never holds one (IdParameterText).
   */
  lemma PreviewIdempotent(url: string)
    requires '&' !in FileId(url)
    ensures DrivePreview(DrivePreview(url)) == DrivePreview(url)
  {
    if !IsPassThrough(url) && FileId(url) != "" {
      if Contains(url, "id=") {
        ParameterIdHasNoIdParameter(url);
      } else {
        SegmentIdHasNoIdParameter(url);
      }
      ThumbnailIsFixedPoint(FileId(url));
    }
  }

  /** A link on the Drive host that is neither a mail link nor a folder link is rewritten. */
  lemma DriveHostLink(path: string)
    requires var url := "https://" + "drive.google.com" + path;
      !Contains(url, "mailto:") && !Contains(url, "/folders/")
    ensures !IsPassThrough("https://" + "drive.google.com" + path)
  {
    OccursBetween("https://", "drive.google.com", path);
  }

  /**
   * The text after `id=` in an `open?id=` link: the id is cut at the first `&`
   * when the id itself holds neither `&` nor `id=`.
   */
  lemma AmpersandEndsId(id: string, query: string)
    requires '&' !in id && !Contains(id, "id=")
    ensures SplitFirst(SplitFirst(id + "&" + query, "id="), "&") == id
  {
    var rest := id + "&" + query;
    SplitFirstAtChar(id, '&', query);
    NoIdParameterBeforeAmpersand(id, query);
    SplitFirstNested(rest, "id=", "&");
  }

  /** In an `open?id=` link the first `id=` is the one after `open?`. */
  lemma OpenLinkParameter(id: string, query: string)
    ensures var head := "https://" + "drive.google.com" + "/open?";
      var url := "https://" + "drive.google.com" + "/open?id=" + id + "&" + query;
      && OccursAt(url, "id=", |head|) && (forall j :: 0 <= j < |head| ==> !OccursAt(url, "id=", j))
      && url[|head| + 3..] == id + "&" + query
  {
    var head := "https://" + "drive.google.com" + "/open?";
    var rest := id + "&" + query;
    var url := "https://" + "drive.google.com" + "/open?id=" + id + "&" + query;
    assert url == head + "id=" + rest;
    MissingCharacter(head, "id=", 2);
    FirstIdParameter(head, rest);
  }

  /**
   * An `open?id=` sharing link: whatever query follows the first `&`, the
   * thumbnail is built from the text between `id=` and that `&`.
   */
  lemma OpenLink(id: string, query: string)
    requires id != "" && '&' !in id && !Contains(id, "id=")
    requires var url := "https://" + "drive.google.com" + "/open?id=" + id + "&" + query;
      !Contains(url, "mailto:") && !Contains(url, "/folders/")
    ensures DrivePreview("https://" + "drive.google.com" + "/open?id=" + id + "&" + query) == Thumbnail(id)
  {
    var url := "https://" + "drive.google.com" + "/open?id=" + id + "&" + query;
    assert url == "https://" + "drive.google.com" + ("/open?id=" + id + "&" + query);
    DriveHostLink("/open?id=" + id + "&" + query);
    OpenLinkParameter(id, query);
    IdParameterLink(url, |"https://" + "drive.google.com" + "/open?"|);
    AmpersandEndsId(id, query);
  }

  /** In a `file/d/` link the first `/d/` is the one after `/file`. */
  lemma FirstPathSegment(rest: string)
    ensures var a := "https://" + "drive.google.com" + "/file";
      var url := a + "/d/" + rest;
      OccursAt(url, "/d/", |a|) && forall j :: 0 <= j < |a| ==> !OccursAt(url, "/d/", j)
  {
    var a := "https://" + "drive.google.com" + "/file";
    var url := a + "/d/" + rest;
    assert a == "https://" + ['d'] + "rive.google.com/file";
    LoneCharacter("https://", 'd', "rive.google.com/file", "/d/", 1);
    OccursBetween(a, "/d/", rest);
    assert url[|a| - 1] == 'e';
    forall j | 0 <= j < |a|
      ensures !OccursAt(url, "/d/", j)
    {
      if j + 3 <= |a| {
        assert url == a + ("/d/" + rest);
        OccursInPrefix(a, "/d/" + rest, "/d/", j);
      } else {
        OccursAtChar(url, "/d/", j, |a| - 1 - j);
      }
    }
  }

  /**
   * A `file/d/<id>/...` sharing link without an `id=` parameter: the thumbnail is
   * built from the path segment after `/d/`.
   */
  lemma FileLink(id: string, tail: string)
    requires id != "" && '/' !in id
    requires var url := "https://" + "drive.google.com" + "/file/d/" + id + "/" + tail;
      !Contains(url, "mailto:") && !Contains(url, "/folders/") && !Contains(url, "id=")
    ensures DrivePreview("https://" + "drive.google.com" + "/file/d/" + id + "/" + tail) == Thumbnail(id)
  {
    var a := "https://" + "drive.google.com" + "/file";
    var rest := id + "/" + tail;
    var url := "https://" + "drive.google.com" + "/file/d/" + id + "/" + tail;
    assert url == "https://" + "drive.google.com" + ("/file/d/" + rest);
    DriveHostLink("/file/d/" + rest);
    assert url == a + "/d/" + rest;
    FirstPathSegment(rest);
    PathSegmentId(url, |a|);
    assert url[|a| + 3..] == rest;
    SplitFirstAtChar(id, '/', tail);
  }

  /** The example `open?id=` link is neither a mail link nor a folder link. */
  lemma OpenLinkExampleGuards(url: string)
    requires url == "https://" + "drive.google.com" + "/open?id=" + "ABC123" + "&" + "x=1"
    ensures !Contains(url, "mailto:") && !Contains(url, "/folders/")
  {
    assert 'a' !in url && 'f' !in url;
    MissingCharacter(url, "mailto:", 1);
    MissingCharacter(url, "/folders/", 1);
  }

  /** Example: `.../open?id=ABC123&x=1` becomes the thumbnail of `ABC123`. */
  lemma OpenLinkExample()
    ensures DrivePreview("https://" + "drive.google.com" + "/open?id=" + "ABC123" + "&" + "x=1")
         == Thumbnail("ABC123")
  {
    OpenLinkExampleGuards("https://" + "drive.google.com" + "/open?id=" + "ABC123" + "&" + "x=1");
    MissingCharacter("ABC123", "id=", 0);
    OpenLink("ABC123", "x=1");
  }

  /** The example `file/d/` link is not a folder link. */
  lemma FileLinkExampleNotFolder(url: string)
    requires url == "https://" + "drive.google.com" + "/file/d/" + "XYZ789" + "/" + "view"
    ensures !Contains(url, "/folders/")
  {
    assert url == "https://drive.google.com/" + ['f'] + "ile/d/XYZ789/view";
    LoneCharacter("https://drive.google.com/", 'f', "ile/d/XYZ789/view", "/folders/", 1);
  }

  /** Example: `.../file/d/XYZ789/view` becomes the thumbnail of `XYZ789`. */
  lemma FileLinkExample()
    ensures DrivePreview("https://" + "drive.google.com" + "/file/d/" + "XYZ789" + "/" + "view")
         == Thumbnail("XYZ789")
  {
    var url := "https://" + "drive.google.com" + "/file/d/" + "XYZ789" + "/" + "view";
    MissingCharacter(url, "mailto:", 1);
    MissingCharacter(url, "id=", 2);
    FileLinkExampleNotFolder(url);
    FileLink("XYZ789", "view");
  }

  /** The example `ouid=` link is not a mail link. */
  lemma SubstringIdExampleNotMail(url: string)
    requires url == "https://" + "drive.google.com" + "/file/d/" + "ABC" + "/view?ou" + "id=" + "123"
    ensures !Contains(url, "mailto:")
  {
    MissingCharacter(url, "mailto:", 1);
  }

  /** The example `ouid=` link is not a folder link. */
  lemma SubstringIdExampleNotFolder(url: string)
    requires url == "https://" + "drive.google.com" + "/file/d/" + "ABC" + "/view?ou" + "id=" + "123"
    ensures !Contains(url, "/folders/")
  {
    var x := "https://" + "drive.google.com" + "/";
    var y := "ile/d/" + "ABC" + "/view?ou" + "id=" + "123";
    assert url == x + ['f'] + y;
    LoneCharacter(x, 'f', y, "/folders/", 1);
  }

  /** In the example `ouid=` link the first `id=` is the one inside `ouid=`. */
  lemma SubstringIdExampleFirst(url: string, a: string)
    requires a == "https://" + "drive.google.com" + "/file/d/" + "ABC" + "/view?ou"
    requires url == a + "id=" + "123"
    ensures OccursAt(url, "id=", |a|) && forall j :: 0 <= j < |a| ==> !OccursAt(url, "id=", j)
    ensures url[|a| + 3..] == "123"
  {
    assert '=' !in a;
    MissingCharacter(a, "id=", 2);
    FirstIdParameter(a, "123");
  }

  /** The example's `ouid=` value holds neither `id=` nor `&`. */
  lemma SubstringIdExampleValue()
    ensures SplitFirst(SplitFirst("123", "id="), "&") == "123"
  {
    MissingCharacter("123", "id=", 0);
    MissingCharacter("123", "&", 0);
    SplitFirstAbsent("123", "id=");
    SplitFirstAbsent("123", "&");
  }

  /** A Drive link whose first `id=` is followed by `123` and nothing else. */
  lemma SubstringIdExampleRewrite(url: string, a: string)
    requires !IsPassThrough(url)
    requires OccursAt(url, "id=", |a|) && forall j :: 0 <= j < |a| ==> !OccursAt(url, "id=", j)
    requires |a| + 3 <= |url| && url[|a| + 3..] == "123"
    ensures DrivePreview(url) == Thumbnail("123")
  {
    IdParameterLink(url, |a|);
    SubstringIdExampleValue();
  }

  /**
   * Example: `includes('id=')` is a substring test, so the `id=` inside the
   * `ouid=` parameter of `.../file/d/ABC/view?ouid=123` is taken for the id
   * parameter, and the link becomes the thumbnail of `123`, not of `ABC`.
   */
  lemma SubstringIdExample()
    ensures DrivePreview("https://" + "drive.google.com" + "/file/d/" + "ABC" + "/view?ou" + "id=" + "123")
         == Thumbnail("123")
  {
    var a := "https://" + "drive.google.com" + "/file/d/" + "ABC" + "/view?ou";
    var path := "/file/d/" + "ABC" + "/view?ou" + "id=" + "123";
    var url := "https://" + "drive.google.com" + "/file/d/" + "ABC" + "/view?ou" + "id=" + "123";
    SubstringIdExampleNotMail(url);
    SubstringIdExampleNotFolder(url);
    assert url == "https://" + "drive.google.com" + path;
    DriveHostLink(path);
    SubstringIdExampleFirst(url, a);
    SubstringIdExampleRewrite(url, a);
  }
}
