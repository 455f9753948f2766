/** `server_url` of server/thingbox/client.py. */
module Client {

  predicate EndsWithSlash(s: string) {
    |s| > 0 && s[|s| - 1] == '/'
  }

  /**
    The base URL with at most one trailing `/` removed, followed by `path`.
    Python's `server_base_url[-1]` raises on an empty base, hence the precondition.
  */
  function ServerUrl(base: string, path: string): (r: string)
    requires |base| > 0
    ensures |r| >= |path| && r[|r| - |path|..] == path
    ensures var prefix := r[..|r| - |path|];
      && (base == prefix || base == prefix + "/")
      && (base == prefix + "/" <==> EndsWithSlash(base))
    ensures |r| == |base| + |path| - (if EndsWithSlash(base) then 1 else 0)
  {
    var trimmed := if base[|base| - 1] != '/' then base else base[..|base| - 1];
    assert EndsWithSlash(base) ==> base == trimmed + "/";
    trimmed + path
  }

  /** A base without a trailing `/` is used unchanged. */
  lemma ServerUrlKeepsPlainBase(base: string, path: string)
    requires |base| > 0 && !EndsWithSlash(base)
    ensures ServerUrl(base, path) == base + path
  {
  }

  /** A base ending in `/` loses exactly that one `/`. */
  lemma ServerUrlDropsOneSlash(base: string, path: string)
    requires EndsWithSlash(base)
    ensures ServerUrl(base, path) == base[..|base| - 1] + path
  {
  }

  /** Adding one `/` to a base that has none does not change the URL. */
  lemma ServerUrlSlashInsensitive(base: string, path: string)
    requires |base| > 0 && !EndsWithSlash(base)
    ensures ServerUrl(base + "/", path) == ServerUrl(base, path)
  {
  }

  /** Only one `/` is removed: a base ending in `//` keeps one of them. */
  lemma ServerUrlKeepsSecondSlash(base: string, path: string)
    requires |base| >= 2 && base[|base| - 2..] == "//"
    ensures ServerUrl(base, path) == base[..|base| - 1] + path
    ensures EndsWithSlash(base[..|base| - 1])
  {
    assert base[|base| - 2] == (base[|base| - 2..])[0];
    assert base[|base| - 1] == (base[|base| - 2..])[1];
  }
}
