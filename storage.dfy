/**
 * Object paths and public URLs of the `portfolio-images` storage bucket:
 * how the actions name an uploaded file, how a public URL is formed from a
 * path, and how a stored public URL is mapped back to the path to remove.
 */
module Storage {
  import opened Common
  import opened JsStrings

  /** The bucket name followed by a slash; the actions split public URLs on it. */
  const Marker: string := "portfolio-images/"

  /** Directory of skill icons inside the bucket. */
  const SkillIconDir: string := "skill-icons"

  /** The `p` of `portfolio` does not recur in the marker. */
  lemma MarkerFirstCharUnique()
    ensures |Marker| > 0 && FirstCharUnique(Marker)
  {
    assert Marker[1..] == "ortfolio-images/";
  }

  /** The public URL of an object: `base` stands for everything up to the bucket
      name, `https://<project>.supabase.co/storage/v1/object/public/`. */
  function PublicUrl(base: string, path: string): string {
    base + Marker + path
  }

  /** The public URLs of a list of objects, in the same order. */
  function PublicUrls(base: string, paths: seq<string>): (urls: seq<string>)
    ensures |urls| == |paths|
  {
    if |paths| == 0 then [] else [PublicUrl(base, paths[0])] + PublicUrls(base, paths[1..])
  }

  /** `url.split("portfolio-images/")[1]` when there is such a piece, else `""`. */
  function StoragePath(url: string): string {
    var parts := Split(url, Marker);
    if |parts| > 1 then parts[1] else ""
  }

  /** The paths to remove for a list of stored URLs: each URL mapped to its
      storage path, the empty ones dropped, the order kept. */
  function StoragePaths(urls: seq<string>): (paths: seq<string>)
    ensures |paths| <= |urls|
  {
    if |urls| == 0 then []
    else
      var p := StoragePath(urls[0]);
      (if p != "" then [p] else []) + StoragePaths(urls[1..])
  }

  /** `fileName.split(".").pop()`: the text after the last dot, or the whole
      name when it has none (ExtensionIsSplitPop shows the two agree). */
  function Extension(fileName: string): string
    decreases |fileName|
  {
    if |fileName| == 0 || fileName[|fileName| - 1] == '.' then ""
    else Extension(fileName[..|fileName| - 1]) + [fileName[|fileName| - 1]]
  }

  /** `ext` is the last dot-separated segment of `s`: it holds no dot, ends
      `s`, and is either all of `s` or preceded by a dot. */
  predicate LastSegment(s: string, ext: string) {
    && '.' !in ext
    && |ext| <= |s| && s[|s| - |ext|..] == ext
    && (|ext| < |s| ==> s[|s| - |ext| - 1] == '.')
  }

  /** The object path an action uploads to: `<dir>/<fresh name>.<extension>`. */
  function ObjectPath(dir: string, freshName: string, fileName: string): string {
    dir + "/" + freshName + "." + Extension(fileName)
  }

  // ---------------------------------------------------------------------
  // Lemmas
  // ---------------------------------------------------------------------

  /** Without the marker the path is empty, and no path ever holds the marker. */
  lemma StoragePathNoMarker(url: string)
    ensures !Contains(url, Marker) ==> StoragePath(url) == ""
    ensures !Contains(StoragePath(url), Marker)
  {
    if !Contains(url, Marker) {
      SplitOfFree(url, Marker);
    }
    SplitPartsFree(url, Marker);
    assert !Contains("", Marker);
  }

  /** When the marker occurs in `url` (first at `i`), the path is the text after
      it up to the next occurrence of the marker or to the end of the URL. */
  lemma StoragePathBetweenMarkers(url: string, i: nat)
    requires IndexFrom(url, Marker, 0) == Some(i)
    ensures var rest := url[i + |Marker|..]; var p := StoragePath(url);
      && StartsWith(rest, p)
      && !Contains(p, Marker)
      && (p == rest || OccursAt(rest, Marker, |p|))
  {
    var rest := url[i + |Marker|..];
    SplitSome(url, Marker, i);
    assert StoragePath(url) == Split(rest, Marker)[0];
    SplitPartsFree(rest, Marker);
    var r := IndexFrom(rest, Marker, 0);
    if r.Some? {
      SplitSome(rest, Marker, r.value);
      IndexFromFound(rest, Marker, 0);
    } else {
      SplitNone(rest, Marker);
    }
  }

  /** A public URL gives back its object path, when neither the base nor the
      path contains the marker (the URL shape of next.config.ts). */
  lemma StoragePathOfPublicUrl(base: string, path: string)
    requires !Contains(base, Marker) && !Contains(path, Marker)
    ensures StoragePath(PublicUrl(base, path)) == path
  {
    MarkerFirstCharUnique();
    SplitAfterFree(base, Marker, path);
    SplitOfFree(path, Marker);
  }

  /** Mapping stored URLs back to paths keeps the order: it distributes over
      concatenation. */
  lemma {:induction false} StoragePathsAppend(u: seq<string>, v: seq<string>)
    ensures StoragePaths(u + v) == StoragePaths(u) + StoragePaths(v)
    decreases |u|
  {
    if |u| > 0 {
      assert u + v == [u[0]] + (u[1..] + v);
      assert u == [u[0]] + u[1..];
      StoragePathsCons(u[0], u[1..] + v);
      StoragePathsCons(u[0], u[1..]);
      StoragePathsAppend(u[1..], v);
    } else {
      assert u + v == v;
    }
  }

  /** Every path to remove is non-empty. */
  lemma {:induction false} StoragePathsNonEmpty(urls: seq<string>)
    ensures forall p :: p in StoragePaths(urls) ==> p != ""
    decreases |urls|
  {
    if |urls| > 0 {
      StoragePathsCons(urls[0], urls[1..]);
      assert urls == [urls[0]] + urls[1..];
      StoragePathsNonEmpty(urls[1..]);
    }
  }

  /** URLs without the marker are dropped. */
  lemma StoragePathsDropUnmarked(url: string)
    requires !Contains(url, Marker)
    ensures StoragePaths([url]) == []
  {
    StoragePathNoMarker(url);
  }

  /** One step of StoragePaths. */
  lemma StoragePathsCons(url: string, rest: seq<string>)
    ensures StoragePaths([url] + rest)
      == (if StoragePath(url) != "" then [StoragePath(url)] else []) + StoragePaths(rest)
  {
    assert ([url] + rest)[1..] == rest;
  }

  /** One step of PublicUrls. */
  lemma PublicUrlsCons(base: string, paths: seq<string>)
    requires |paths| > 0
    ensures PublicUrls(base, paths) == [PublicUrl(base, paths[0])] + PublicUrls(base, paths[1..])
  {
  }

  /** The public URL list of concatenated path lists is the concatenation. */
  lemma {:induction false} PublicUrlsAppend(base: string, p: seq<string>, q: seq<string>)
    ensures PublicUrls(base, p + q) == PublicUrls(base, p) + PublicUrls(base, q)
    decreases |p|
  {
    if |p| == 0 {
      assert p + q == q;
    } else {
      assert (p + q)[1..] == p[1..] + q;
      PublicUrlsCons(base, p + q);
      PublicUrlsCons(base, p);
      PublicUrlsAppend(base, p[1..], q);
    }
  }

  /** The `k`-th URL is the public URL of the `k`-th path. */
  lemma {:induction false} PublicUrlsAt(base: string, paths: seq<string>, k: nat)
    requires k < |paths|
    ensures PublicUrls(base, paths)[k] == PublicUrl(base, paths[k])
    decreases k
  {
    PublicUrlsCons(base, paths);
    if k > 0 {
      PublicUrlsAt(base, paths[1..], k - 1);
    }
  }

  /** The URLs the actions store map back to exactly the paths they uploaded. */
  lemma {:induction false} StoragePathsOfPublicUrls(base: string, paths: seq<string>)
    requires !Contains(base, Marker)
    requires forall p :: p in paths ==> p != "" && !Contains(p, Marker)
    ensures StoragePaths(PublicUrls(base, paths)) == paths
    decreases |paths|
  {
    if |paths| > 0 {
      assert paths[0] in paths;
      StoragePathOfPublicUrl(base, paths[0]);
      PublicUrlsCons(base, paths);
      StoragePathsCons(PublicUrl(base, paths[0]), PublicUrls(base, paths[1..]));
      assert forall p :: p in paths[1..] ==> p in paths;
      StoragePathsOfPublicUrls(base, paths[1..]);
      assert [paths[0]] + paths[1..] == paths;
    }
  }

  /** The extension holds no dot. */
  lemma {:induction false} ExtensionNoDot(fileName: string)
    ensures '.' !in Extension(fileName)
    decreases |fileName|
  {
    var n := |fileName|;
    if n > 0 && fileName[n - 1] != '.' {
      ExtensionNoDot(fileName[..n - 1]);
    }
  }

  /** The extension ends the name. */
  lemma {:induction false} ExtensionSuffix(fileName: string)
    ensures |Extension(fileName)| <= |fileName|
    ensures fileName[|fileName| - |Extension(fileName)|..] == Extension(fileName)
    decreases |fileName|
  {
    var n := |fileName|;
    if n > 0 && fileName[n - 1] != '.' {
      var init := fileName[..n - 1];
      ExtensionSuffix(init);
      var e := Extension(init);
      assert fileName[n - |e| - 1..] == init[|init| - |e|..] + [fileName[n - 1]];
    }
  }

  /** The extension is all of the name or comes right after a dot. */
  lemma {:induction false} ExtensionPreceded(fileName: string)
    ensures |Extension(fileName)| < |fileName| ==> fileName[|fileName| - |Extension(fileName)| - 1] == '.'
    decreases |fileName|
  {
    var n := |fileName|;
    if n > 0 && fileName[n - 1] != '.' {
      var init := fileName[..n - 1];
      ExtensionPreceded(init);
      var m := |Extension(init)|;
      assert |Extension(fileName)| == m + 1;
      if m < |init| {
        assert fileName[n - m - 2] == init[|init| - m - 1];
      }
    }
  }

  /** The extension is the last dot-separated segment of the name. */
  lemma ExtensionIsLastSegment(fileName: string)
    ensures LastSegment(fileName, Extension(fileName))
  {
    ExtensionNoDot(fileName);
    ExtensionSuffix(fileName);
    ExtensionPreceded(fileName);
  }

  /** A string has only one last segment. */
  lemma LastSegmentUnique(s: string, e1: string, e2: string)
    requires LastSegment(s, e1) && LastSegment(s, e2)
    ensures e1 == e2
  {
    // Were one shorter, it would be a suffix of the other, and the dot
    // before it would lie inside the dot-free longer one.
  }

  /** The last piece of `split(".")` is the last segment too. */
  lemma SplitPopIsLastSegment(fileName: string)
    ensures LastSegment(fileName, Last(Split(fileName, ".")))
  {
    var ext := Last(Split(fileName, "."));
    SplitLastFree(fileName, ".");
    SplitLastSuffix(fileName, ".");
    SplitLastPreceded(fileName, ".");
    assert "." == ['.'];
    ContainsChar(ext, '.');
    if |ext| < |fileName| {
      var k := |fileName| - |ext| - 1;
      assert fileName[k] == fileName[k..k + 1][0] == '.';
    }
  }

  /** The recursive definition of the extension is `split(".").pop()`. */
  lemma ExtensionIsSplitPop(fileName: string)
    ensures Extension(fileName) == Last(Split(fileName, "."))
  {
    ExtensionIsLastSegment(fileName);
    SplitPopIsLastSegment(fileName);
    LastSegmentUnique(fileName, Extension(fileName), Last(Split(fileName, ".")));
  }
}
