/** Names of the method and mapping files (maptomethod.py:72-85): download URLs
    with the wanted ending are keyed by the basename the regular expression
    `[^/\&\?]+\.\w{3,4}(?=([\?&].*$|$))` finds, cut at its first dot. */
module UrlNames {
  import opened Wrappers
  import opened Errors
  import opened PyStr
  import opened PyDict

  /** `\w`, restricted to ASCII. */
  predicate IsWordChar(c: char) {
    'a' <= c <= 'z' || 'A' <= c <= 'Z' || '0' <= c <= '9' || c == '_'
  }

  /** `[^/\&\?]`: the class the Python literal `[^/\\&\?]` compiles to. */
  predicate InNameClass(c: char) {
    c != '/' && c != '&' && c != '?'
  }

  /** `$` without MULTILINE: at the end, or just before a final newline. */
  predicate EndAnchorAt(s: string, e: int) {
    e == |s| || (0 <= e == |s| - 1 && s[e] == '\n')
  }

  /** The lookahead `(?=([\?&].*$|$))` at position `m`. */
  predicate LookaheadAt(s: string, m: int)
    requires 0 <= m <= |s|
  {
    || EndAnchorAt(s, m)
    || (&& m < |s|
        && (s[m] == '?' || s[m] == '&')
        && exists e | m + 1 <= e <= |s| :: EndAnchorAt(s, e) && forall q | m + 1 <= q < e :: s[q] != '\n')
  }

  /** `\.\w{k}` with its dot at `j`, followed by the lookahead. */
  predicate ExtensionAt(s: string, j: int, k: nat)
    requires 0 <= j < |s|
  {
    && s[j] == '.'
    && j + 1 + k <= |s|
    && (forall q | j + 1 <= q < j + 1 + k :: IsWordChar(s[q]))
    && LookaheadAt(s, j + 1 + k)
  }

  /** The pattern matches at position `i`: some split into `[^/\&\?]+`, a dot
      and three or four word characters passes the lookahead. */
  predicate MatchesAt(s: string, i: int)
    requires 0 <= i <= |s|
  {
    exists j | i < j < |s| ::
      (forall q | i <= q < j :: InNameClass(s[q])) && (ExtensionAt(s, j, 4) || ExtensionAt(s, j, 3))
  }

  /** `re.search` scans start positions from `i` upwards and reports the first that matches. */
  function SearchFrom(s: string, i: nat): (r: Option<nat>)
    requires i <= |s|
    ensures r.Some? ==> i <= r.value <= |s| && MatchesAt(s, r.value)
    ensures forall q :: i <= q <= |s| && (r.None? || q < r.value) ==> !MatchesAt(s, q)
    decreases |s| - i
  {
    if MatchesAt(s, i) then Some(i)
    else if i == |s| then None
    else SearchFrom(s, i + 1)
  }

  /** `re_search(pattern, url)[0].split('.')[0]`, or None where the search finds
      nothing (the source then subscripts None and fails). The key is the match
      from its start up to its first dot. */
  function NameOf(url: string): (r: Option<string>)
    ensures r.None? <==> forall i :: 0 <= i <= |url| ==> !MatchesAt(url, i)
    ensures r.Some? ==> exists i :: (0 <= i <= |url| && MatchesAt(url, i) &&
      (forall q :: 0 <= q < i ==> !MatchesAt(url, q)) && r.value == FirstSegment(url[i..], '.'))
  {
    match SearchFrom(url, 0)
    case None => None
    case Some(i) => Some(FirstSegment(url[i..], '.'))
  }

  /** The key does not depend on where the match ends: whichever split the
      regex engine settles on, the text before the first dot is the same. */
  lemma KeyIgnoresMatchEnd(url: string, i: nat, j: nat, k: nat)
    requires i < j < |url| && (forall q | i <= q < j :: InNameClass(url[q])) && ExtensionAt(url, j, k)
    ensures FirstSegment(url[i..j + 1 + k], '.') == FirstSegment(url[i..], '.')
  {
    var m := url[i..j + 1 + k];
    assert m[j - i] == '.';
    assert '.' in m;
    assert url[i..] == m + url[j + 1 + k..];
    FirstSegmentOfPrefix(m, url[j + 1 + k..], '.');
  }

  /** The item one download URL contributes to the comprehension. */
  function NamedItem(suffix: string, url: string): Option<(string, string)> {
    if EndsWith(url, suffix) then
      match NameOf(url)
      case Some(n) => Some((n, url))
      case None => None
    else None
  }

  /** A kept URL in which the regex finds nothing. */
  predicate Unnamed(suffix: string, url: string) {
    EndsWith(url, suffix) && NameOf(url).None?
  }

  /** `{re_search(...)[0].split('.')[0]: url for url in urls if url.endswith(suffix)}` */
  function ByName(urls: seq<string>, suffix: string): (r: Result<Dict<string, string>, Exception>)
    ensures r.Failure? <==> exists i :: 0 <= i < |urls| && Unnamed(suffix, urls[i])
    ensures r.Failure? ==> r.error == TypeError(NoneNotSubscriptable)
    ensures r.Success? ==> UniqueKeys(r.value)
    ensures r.Success? ==> forall i :: 0 <= i < |r.value| ==>
      r.value[i].1 in urls && EndsWith(r.value[i].1, suffix) && NameOf(r.value[i].1) == Some(r.value[i].0)
    ensures r.Success? ==> forall u :: u in urls && EndsWith(u, suffix) ==>
      NameOf(u).Some? && HasKey(r.value, NameOf(u).value)
  {
    if exists i :: 0 <= i < |urls| && Unnamed(suffix, urls[i]) then Failure(TypeError(NoneNotSubscriptable))
    else
      var f := (u: string) => NamedItem(suffix, u);
      var d := Collect(urls, f);
      CollectEntries(urls, f);
      CollectCovers(urls, f);
      assert forall i :: 0 <= i < |d| ==> d[i].1 in urls && EndsWith(d[i].1, suffix) && NameOf(d[i].1) == Some(d[i].0) by {
        forall i | 0 <= i < |d| ensures d[i].1 in urls && EndsWith(d[i].1, suffix) && NameOf(d[i].1) == Some(d[i].0) {
          assert LastFor(urls, f, d[i]);
          var j :| 0 <= j < |urls| && f(urls[j]) == Some(d[i]) && NoLaterKey(urls, f, j, d[i].0);
        }
      }
      assert forall u :: u in urls && EndsWith(u, suffix) ==> NameOf(u).Some? && HasKey(d, NameOf(u).value) by {
        forall u | u in urls && EndsWith(u, suffix) ensures NameOf(u).Some? && HasKey(d, NameOf(u).value) {
          var j :| 0 <= j < |urls| && urls[j] == u;
          assert f(urls[j]).Some?;
        }
      }
      Success(d)
  }

  /** A folder listing: one entry per file or sub-folder, with the entry's
      `download_url`, which is `None` for a sub-folder. */
  type Listing = seq<Option<string>>

  /** The download URLs of a listing without sub-folders, in listing order. */
  function DownloadUrls(entries: Listing): (r: seq<string>)
    requires forall i :: 0 <= i < |entries| ==> entries[i].Some?
    ensures |r| == |entries| && forall i :: 0 <= i < |r| ==> entries[i] == Some(r[i])
  {
    seq(|entries|, i requires 0 <= i < |entries| => entries[i].value)
  }

  /** `[e.download_url for e in entries if e.download_url.endswith(suffix)]`
      followed by the name comprehension: an entry without a download URL makes
      the list comprehension raise before any name is read. */
  function ListingByName(entries: Listing, suffix: string): (r: Result<Dict<string, string>, Exception>)
    ensures (exists i :: 0 <= i < |entries| && entries[i].None?) ==>
      r == Failure(AttributeError(NoneHasNoEndswith))
    ensures r.Failure? <==>
      (exists i :: 0 <= i < |entries| && entries[i].None?) ||
      (exists i :: 0 <= i < |entries| && entries[i].Some? && Unnamed(suffix, entries[i].value))
    ensures r.Failure? && (forall i :: 0 <= i < |entries| ==> entries[i].Some?) ==>
      r.error == TypeError(NoneNotSubscriptable)
    ensures r.Success? ==> UniqueKeys(r.value)
    ensures r.Success? ==> forall i :: 0 <= i < |r.value| ==>
      Some(r.value[i].1) in entries && EndsWith(r.value[i].1, suffix) && NameOf(r.value[i].1) == Some(r.value[i].0)
    ensures r.Success? ==> forall i :: 0 <= i < |entries| && EndsWith(entries[i].value, suffix) ==>
      HasKey(r.value, NameOf(entries[i].value).value)
  {
    if exists i :: 0 <= i < |entries| && entries[i].None? then Failure(AttributeError(NoneHasNoEndswith))
    else
      var urls := DownloadUrls(entries);
      ByNameOfListing(entries, urls, suffix);
      ByName(urls, suffix)
  }

  /** What `ByName` promises about the download URLs, restated for the listing entries. */
  lemma ByNameOfListing(entries: Listing, urls: seq<string>, suffix: string)
    requires |urls| == |entries| && forall i :: 0 <= i < |urls| ==> entries[i] == Some(urls[i])
    ensures var r := ByName(urls, suffix);
      && (r.Failure? <==> exists i :: 0 <= i < |entries| && entries[i].Some? && Unnamed(suffix, entries[i].value))
      && (r.Success? ==> forall i :: 0 <= i < |r.value| ==> Some(r.value[i].1) in entries)
      && (r.Success? ==> forall i :: 0 <= i < |entries| && EndsWith(entries[i].value, suffix) ==>
            HasKey(r.value, NameOf(entries[i].value).value))
  {
    var r := ByName(urls, suffix);
    if r.Success? {
      forall i | 0 <= i < |r.value| ensures Some(r.value[i].1) in entries {
        var k :| 0 <= k < |urls| && urls[k] == r.value[i].1;
        assert entries[k] == Some(urls[k]);
      }
      forall i | 0 <= i < |entries| && EndsWith(entries[i].value, suffix)
        ensures HasKey(r.value, NameOf(entries[i].value).value)
      {
        assert urls[i] in urls;
      }
    }
  }

  /** `get_methods`: Turtle files of the methods folder, by name. */
  function Methods(entries: Listing): (r: Result<Dict<string, string>, Exception>)
    ensures (exists i :: 0 <= i < |entries| && entries[i].None?) ==>
      r == Failure(AttributeError(NoneHasNoEndswith))
    ensures r.Failure? <==>
      (exists i :: 0 <= i < |entries| && entries[i].None?) ||
      (exists i :: 0 <= i < |entries| && entries[i].Some? && Unnamed("ttl", entries[i].value))
    ensures r.Success? ==> forall i :: 0 <= i < |r.value| ==>
      Some(r.value[i].1) in entries && EndsWith(r.value[i].1, "ttl") && NameOf(r.value[i].1) == Some(r.value[i].0)
  {
    ListingByName(entries, "ttl")
  }

  /** `get_mappings`: YAML files of the mappings folder, by name. */
  function Mappings(entries: Listing): (r: Result<Dict<string, string>, Exception>)
    ensures (exists i :: 0 <= i < |entries| && entries[i].None?) ==>
      r == Failure(AttributeError(NoneHasNoEndswith))
    ensures r.Failure? <==>
      (exists i :: 0 <= i < |entries| && entries[i].None?) ||
      (exists i :: 0 <= i < |entries| && entries[i].Some? && Unnamed("yaml", entries[i].value))
    ensures r.Success? ==> forall i :: 0 <= i < |r.value| ==>
      Some(r.value[i].1) in entries && EndsWith(r.value[i].1, "yaml") && NameOf(r.value[i].1) == Some(r.value[i].0)
  {
    ListingByName(entries, "yaml")
  }

  /** A URL without a dot has no name. */
  lemma NoDotNoName(url: string)
    requires '.' !in url
    ensures NameOf(url).None?
  {
    forall i | 0 <= i <= |url| ensures !MatchesAt(url, i) {
      forall j | i < j < |url| ensures url[j] != '.' {
        assert url[j] in url;
      }
    }
  }

  /** A kept URL with no dot, such as a listing entry ending in "ttl" without
      an extension, makes the whole comprehension fail. */
  lemma DotlessUrlFails(urls: seq<string>, suffix: string, i: nat)
    requires i < |urls| && EndsWith(urls[i], suffix) && '.' !in urls[i]
    ensures ByName(urls, suffix) == Failure(TypeError(NoneNotSubscriptable))
  {
    NoDotNoName(urls[i]);
    assert Unnamed(suffix, urls[i]);
  }

  /** Among kept URLs with the same name, the one listed last is kept. */
  lemma LaterUrlWins(urls: seq<string>, suffix: string, j: nat)
    requires ByName(urls, suffix).Success?
    requires j < |urls| && NamedItem(suffix, urls[j]).Some?
    requires forall j' :: j < j' < |urls| && NamedItem(suffix, urls[j']).Some? ==>
      NamedItem(suffix, urls[j']).value.0 != NamedItem(suffix, urls[j]).value.0
    ensures Get(ByName(urls, suffix).value, NameOf(urls[j]).value) == Some(urls[j])
  {
    var f := (u: string) => NamedItem(suffix, u);
    assert ByName(urls, suffix).value == Collect(urls, f);
    CollectLastWins(urls, f, j);
  }

  /** No match can start at or before a `/` at position `d` when nothing before
      it is `?` or `&`: the name run cannot cross the `/`, and a match ending
      before it has no end or query for the lookahead to stand on. */
  lemma NoMatchBeforeSlash(s: string, d: nat)
    requires d < |s| && s[d] == '/'
    requires forall q :: 0 <= q < d ==> s[q] != '?' && s[q] != '&'
    ensures forall i :: 0 <= i <= d ==> !MatchesAt(s, i)
  {
    forall i | 0 <= i <= d ensures !MatchesAt(s, i) {
      forall j | i < j < |s|
        ensures !((forall q | i <= q < j :: InNameClass(s[q])) && (ExtensionAt(s, j, 4) || ExtensionAt(s, j, 3)))
      {
        if j > d {
          assert !InNameClass(s[d]);
        } else if j < d {
          forall k: nat | k == 3 || k == 4 ensures !ExtensionAt(s, j, k) {
            if j + k >= d {
              assert !IsWordChar(s[d]);
            } else {
              assert !EndAnchorAt(s, j + 1 + k);
            }
          }
        }
      }
    }
  }

  /** A match starts at `b`: name characters up to the dot at `j`, then `k`
      word characters and the end or a query. */
  lemma MatchAtBasename(s: string, b: nat, j: nat, k: nat)
    requires b < j < |s| && s[j] == '.' && (k == 3 || k == 4) && j + 1 + k <= |s|
    requires forall q :: b <= q < j ==> InNameClass(s[q])
    requires forall q :: j < q <= j + k ==> IsWordChar(s[q])
    requires j + 1 + k == |s| ||
      ((s[j + 1 + k] == '?' || s[j + 1 + k] == '&') && forall q :: j + 1 + k < q < |s| ==> s[q] != '\n')
    ensures MatchesAt(s, b)
  {
    assert LookaheadAt(s, j + 1 + k) by {
      if j + 1 + k < |s| {
        assert EndAnchorAt(s, |s|);
      }
    }
    assert ExtensionAt(s, j, k);
  }

  /** `s` is a directory part free of `?` and `&`, a `/` at `d`, name characters
      up to a dot at `j`, `k` word characters, then the end or a query. */
  ghost predicate Shaped(s: string, d: nat, j: nat, k: nat) {
    && d + 1 < j < |s| && s[d] == '/' && s[j] == '.'
    && (k == 3 || k == 4) && j + 1 + k <= |s|
    && (forall q :: 0 <= q < d ==> s[q] != '?' && s[q] != '&')
    && (forall q :: d < q < j ==> InNameClass(s[q]))
    && (forall q :: j < q <= j + k ==> IsWordChar(s[q]))
    && (j + 1 + k == |s| ||
        ((s[j + 1 + k] == '?' || s[j + 1 + k] == '&') && forall q :: j + 1 + k < q < |s| ==> s[q] != '\n'))
  }

  /** A shaped URL is named by the text after its `/` up to the first dot. */
  lemma NameOfShaped(s: string, d: nat, j: nat, k: nat)
    requires Shaped(s, d, j, k)
    ensures NameOf(s) == Some(FirstSegment(s[d + 1..], '.'))
  {
    NoMatchBeforeSlash(s, d);
    MatchAtBasename(s, d + 1, j, k);
    KeyOfFirstMatch(s, d + 1);
  }

  /** `dir/stem.ext` followed by an optional query is shaped. */
  lemma ShapeOfUrl(dir: string, stem: string, ext: string, tail: string)
    requires '?' !in dir && '&' !in dir
    requires |stem| >= 1 && '/' !in stem && '&' !in stem && '?' !in stem
    requires (|ext| == 3 || |ext| == 4) && forall c :: c in ext ==> IsWordChar(c)
    requires tail == [] || ((tail[0] == '?' || tail[0] == '&') && '\n' !in tail)
    ensures Shaped(dir + "/" + stem + "." + ext + tail, |dir|, |dir| + 1 + |stem|, |ext|)
  {
    var A := dir + "/";
    var B := A + stem;
    var C := B + ".";
    var D := C + ext;
    var s := D + tail;
    var j := |B|;
    assert s[|dir|] == '/' && s[j] == '.' by {
      assert s[|dir|] == D[|dir|] == C[|dir|] == B[|dir|] == A[|dir|];
      assert s[j] == D[j] == C[j];
    }
    assert forall q :: 0 <= q < |dir| ==> s[q] != '?' && s[q] != '&' by {
      forall q | 0 <= q < |dir| ensures s[q] != '?' && s[q] != '&' {
        assert s[q] == D[q] == C[q] == B[q] == A[q] == dir[q] && dir[q] in dir;
      }
    }
    assert forall q :: |dir| < q < j ==> InNameClass(s[q]) by {
      forall q | |dir| < q < j ensures InNameClass(s[q]) {
        assert s[q] == D[q] == C[q] == B[q] == stem[q - |A|] && stem[q - |A|] in stem;
      }
    }
    assert forall q :: j < q <= j + |ext| ==> IsWordChar(s[q]) by {
      forall q | j < q <= j + |ext| ensures IsWordChar(s[q]) {
        assert s[q] == D[q] == ext[q - j - 1] && ext[q - j - 1] in ext;
      }
    }
    assert |D| < |s| ==> s[|D|] == tail[0];
    assert forall q :: |D| < q < |s| ==> s[q] != '\n' by {
      forall q | |D| < q < |s| ensures s[q] != '\n' {
        assert s[q] == tail[q - |D|] && tail[q - |D|] in tail;
      }
    }
  }

  /** A download URL `dir/stem.ext` (optionally followed by a `?` or `&` query)
      is named by its stem up to the stem's first dot, as long as the directory
      part holds no `?` or `&`. */
  lemma NameOfBasename(dir: string, stem: string, ext: string, tail: string)
    requires '?' !in dir && '&' !in dir
    requires |stem| >= 1 && '/' !in stem && '&' !in stem && '?' !in stem
    requires (|ext| == 3 || |ext| == 4) && forall c :: c in ext ==> IsWordChar(c)
    requires tail == [] || ((tail[0] == '?' || tail[0] == '&') && '\n' !in tail)
    ensures NameOf(dir + "/" + stem + "." + ext + tail) == Some(FirstSegment(stem, '.'))
  {
    NameAfterSlash(dir, stem, ext, tail);
    AfterSlash(dir, stem, ext, tail);
    FirstSegmentOfStem(stem, ext + tail);
  }

  /** A download URL `dir/stem.ext` is named by what follows its last `/`, cut at the first dot. */
  lemma NameAfterSlash(dir: string, stem: string, ext: string, tail: string)
    requires '?' !in dir && '&' !in dir
    requires |stem| >= 1 && '/' !in stem && '&' !in stem && '?' !in stem
    requires (|ext| == 3 || |ext| == 4) && forall c :: c in ext ==> IsWordChar(c)
    requires tail == [] || ((tail[0] == '?' || tail[0] == '&') && '\n' !in tail)
    ensures NameOf(dir + "/" + stem + "." + ext + tail) ==
      Some(FirstSegment((dir + "/" + stem + "." + ext + tail)[|dir| + 1..], '.'))
  {
    ShapeOfUrl(dir, stem, ext, tail);
    NameOfShaped(dir + "/" + stem + "." + ext + tail, |dir|, |dir| + 1 + |stem|, |ext|);
  }

  /** What follows the directory's `/` in `dir/stem.rest`. */
  lemma AfterSlash(dir: string, stem: string, ext: string, tail: string)
    ensures (dir + "/" + stem + "." + ext + tail)[|dir| + 1..] == stem + ("." + (ext + tail))
  {
  }

  /** The name is read from the first position where the pattern matches. */
  lemma KeyOfFirstMatch(s: string, b: nat)
    requires b <= |s| && MatchesAt(s, b)
    requires forall i :: 0 <= i < b ==> !MatchesAt(s, i)
    ensures NameOf(s) == Some(FirstSegment(s[b..], '.'))
  {
    var i :| 0 <= i <= |s| && MatchesAt(s, i) && (forall q :: 0 <= q < i ==> !MatchesAt(s, q)) &&
      NameOf(s).value == FirstSegment(s[i..], '.');
    assert !(i < b) && !(b < i);
  }

  /** Cutting `stem.rest` at its first dot gives the stem cut at its first dot. */
  lemma FirstSegmentOfStem(stem: string, rest: string)
    ensures FirstSegment(stem + ("." + rest), '.') == FirstSegment(stem, '.')
  {
    if '.' in stem {
      FirstSegmentOfPrefix(stem, "." + rest, '.');
    } else {
      assert stem + ("." + rest) == stem + ['.'] + rest;
      FirstSegmentOfJoin(stem, rest, '.');
      FirstSegmentWithout(stem, '.');
    }
  }

  /** A file with a double extension, such as the MSEO method files
      `DIN_EN_ISO_527-3.drawio.ttl`, is named without either extension. */
  lemma DoubleExtensionName(dir: string, stem: string, inner: string, ext: string, tail: string)
    requires '?' !in dir && '&' !in dir
    requires |stem| >= 1 && '.' !in stem && '/' !in stem && '&' !in stem && '?' !in stem
    requires '/' !in inner && '&' !in inner && '?' !in inner
    requires (|ext| == 3 || |ext| == 4) && forall c :: c in ext ==> IsWordChar(c)
    requires tail == [] || ((tail[0] == '?' || tail[0] == '&') && '\n' !in tail)
    ensures NameOf(dir + "/" + (stem + "." + inner) + "." + ext + tail) == Some(stem)
  {
    NameOfBasename(dir, stem + "." + inner, ext, tail);
    FirstSegmentOfJoin(stem, inner, '.');
  }
}
