/** How `Browser.search` reads a query: as a local file path or as a web
    address, adding a default scheme to the latter. Whether a path exists on
    disk is asked of the file system, so it is given here as a flag. */
module Query {
  import opened PyStr

  /** Where a query is fetched from. */
  datatype Target = FilePath(path: string) | Url(url: string)

  const Separator: string := "://"
  const DefaultScheme: string := "http://"

  /** `_is_path`: a query starting with `~`, `/` or `.`, or naming an
      existing path, is a file path. */
  predicate IsPath(query: string, pathExists: bool)
    requires |query| > 0
  {
    query[0] == '~' || query[0] == '/' || query[0] == '.' || pathExists
  }

  /** `search` up to the fetch: a path is read as it is; anything else is a
      web address, given the `http://` scheme unless it already holds `://`.
      The empty query is not allowed: the first-character test fails on it. */
  function Search(query: string, pathExists: bool): (t: Target)
    requires |query| > 0
    ensures t.FilePath? <==> IsPath(query, pathExists)
    ensures t.FilePath? ==> t.path == query
    ensures t.Url? ==> Contains(t.url, Separator)
    ensures t.Url? ==> (t.url == query <==> Contains(query, Separator))
    ensures t.Url? && t.url != query ==> t.url == DefaultScheme + query
  {
    if IsPath(query, pathExists) then FilePath(query)
    else if Contains(query, Separator) then Url(query)
    else
      SchemeHasSeparator(query);
      Url(DefaultScheme + query)
  }

  /** `http://` followed by anything holds `://`. */
  lemma SchemeHasSeparator(rest: string)
    ensures Contains(DefaultScheme + rest, Separator)
    ensures DefaultScheme + rest != rest
  {
    var tail := Separator + rest;
    assert tail[..|Separator|] == Separator;
    ContainsInTail("http", tail, Separator);
    assert "http" + tail == DefaultScheme + rest;
    assert |DefaultScheme + rest| != |rest|;
  }

  /** Searching for the address a web query was turned into leads to the
      same address: the default scheme is added at most once. */
  lemma SearchIdempotent(query: string)
    requires |query| > 0
    ensures var t := Search(query, false);
      t.Url? ==> |t.url| > 0 && Search(t.url, false) == t
  {
    var t := Search(query, false);
    if t.Url? && t.url != query {
      assert t.url[0] == 'h';
    }
  }
}
