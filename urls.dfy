/**
 * URL string helpers of fetch_messages.py: `normalize_url`, which drops the
 * fragment so that the result can serve as the one cache and dedup key, and
 * `rsplit('/', 1)[0]`, which gives the directory part of a page URL.
 */
module Urls {
  import opened Strings

  /**
   * `normalize_url`: the URL with its fragment removed, i.e. the part
   * before the first `#` (the whole URL when there is none).
   */
  function NormalizeUrl(url: string): (r: string)
    ensures |r| <= |url| && r == url[..|r|]
    ensures '#' !in r
    ensures |r| == |url| || url[|r|] == '#'
    decreases |url|
  {
    if |url| == 0 || url[0] == '#' then ""
    else [url[0]] + NormalizeUrl(url[1..])
  }

  /** A URL without a fragment is its own normal form. */
  lemma NormalizeUrlFixes(url: string)
    requires '#' !in url
    ensures NormalizeUrl(url) == url
  {
  }

  /** Normalising twice is normalising once. */
  lemma NormalizeUrlIdempotent(url: string)
    ensures NormalizeUrl(NormalizeUrl(url)) == NormalizeUrl(url)
  {
    NormalizeUrlFixes(NormalizeUrl(url));
  }

  /**
   * Appending a fragment never changes the key: `u#f` normalises like `u`,
   * so two URLs that differ only in their fragment share one key.
   */
  lemma {:induction false} NormalizeUrlIgnoresFragment(url: string, fragment: string)
    ensures NormalizeUrl(url + "#" + fragment) == NormalizeUrl(url)
    decreases |url|
  {
    if |url| == 0 {
    } else if url[0] == '#' {
      assert (url + "#" + fragment)[0] == '#';
    } else {
      assert (url + "#" + fragment)[1..] == url[1..] + "#" + fragment;
      NormalizeUrlIgnoresFragment(url[1..], fragment);
    }
  }

  /** The two-fragment form of the property above. */
  lemma SameKeyAcrossFragments(url: string, f1: string, f2: string)
    ensures NormalizeUrl(url + "#" + f1) == NormalizeUrl(url + "#" + f2)
    ensures '#' !in url ==> NormalizeUrl(url + "#" + f1) == url
  {
    NormalizeUrlIgnoresFragment(url, f1);
    NormalizeUrlIgnoresFragment(url, f2);
    if '#' !in url {
      NormalizeUrlFixes(url);
    }
  }

  /**
   * `url.rsplit('/', 1)[0]`: everything before the last `/`, or the whole
   * string when it holds no `/`.
   */
  function DirOf(url: string): (d: string)
    ensures |d| <= |url| && d == url[..|d|]
    ensures '/' !in url ==> d == url
    ensures '/' in url ==> |d| < |url| && url[|d|] == '/' && '/' !in url[|d| + 1..]
    decreases |url|
  {
    if '/' !in url then url
    else if url[|url| - 1] == '/' then url[..|url| - 1]
    else
      assert '/' in url[..|url| - 1] by {
        var k :| 0 <= k < |url| && url[k] == '/';
        assert url[..|url| - 1][k] == '/';
      }
      DirOf(url[..|url| - 1])
  }
}
