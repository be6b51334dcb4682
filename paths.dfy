/**
 * The output file name is built from the input path with its extension
 * removed.  Paths are strings of characters; both '\' and '/' separate
 * directories, as on Windows, the only platform the tool opens a dialog on.
 */
module Paths {

  predicate IsSep(c: char)
  {
    c == '\\' || c == '/'
  }

  /**
   * Index `k` holds the dot that starts the extension: nothing after it is
   * a dot or a separator.
   */
  predicate ExtensionDot(path: string, k: int)
  {
    0 <= k < |path| && path[k] == '.'
    && forall m :: k < m < |path| ==> path[m] != '.' && !IsSep(path[m])
  }

  /**
   * The path up to the last dot of its final component, or "" when that
   * component has no dot.  Scans from the end, like the source's loop.
   */
  function Stem(path: string): string
  {
    if path == [] then ""
    else
      var c := path[|path| - 1];
      if IsSep(c) then ""
      else if c == '.' then path[..|path| - 1]
      else Stem(path[..|path| - 1])
  }

  /** Removes the extension, walking backwards from the end of the path. */
  method StripExt(path: string) returns (r: string)
    ensures r == Stem(path)
  {
    var i := |path| - 1;
    assert path[..i + 1] == path;
    while i >= 0 && !IsSep(path[i])
      invariant -1 <= i < |path|
      invariant Stem(path) == Stem(path[..i + 1])
      decreases i + 1
    {
      if path[i] == '.' {
        assert path[..i + 1][..i] == path[..i];
        return path[..i];
      }
      assert path[..i + 1][..i] == path[..i];
      i := i - 1;
    }
    return "";
  }

  /**
   * The stem is the prefix before the extension dot when there is one, and
   * "" when the final component has no dot.
   */
  lemma {:induction false} StemDefinition(path: string)
    ensures forall k :: ExtensionDot(path, k) ==> Stem(path) == path[..k]
    ensures (forall k :: !ExtensionDot(path, k)) ==> Stem(path) == ""
  {
    if path != [] {
      var n := |path| - 1;
      var init := path[..n];
      var c := path[n];
      if IsSep(c) {
        forall k | 0 <= k < |path| && path[k] == '.'
          ensures !ExtensionDot(path, k)
        {
          assert k < n;
        }
      } else if c == '.' {
        assert ExtensionDot(path, n);
        forall k | ExtensionDot(path, k)
          ensures k == n
        {
        }
      } else {
        StemDefinition(init);
        forall k
          ensures ExtensionDot(path, k) <==> ExtensionDot(init, k)
        {
          if ExtensionDot(init, k) {
            assert forall m :: k < m < |path| ==> path[m] != '.' && !IsSep(path[m]) by {
              forall m | k < m < |path|
                ensures path[m] != '.' && !IsSep(path[m])
              {
                if m < n {
                  assert path[m] == init[m];
                }
              }
            }
          }
          if ExtensionDot(path, k) {
            assert k < n;
            assert forall m :: k < m < |init| ==> init[m] == path[m];
          }
        }
        forall k | ExtensionDot(path, k)
          ensures path[..k] == init[..k]
        {
        }
      }
    }
  }

  /** The stem is a prefix of the path, followed there by a dot unless it is empty. */
  lemma {:induction false} StemPrefix(path: string)
    ensures |Stem(path)| < |path| || Stem(path) == ""
    ensures Stem(path) == path[..|Stem(path)|]
    ensures Stem(path) != "" ==> path[|Stem(path)|] == '.'
  {
    if path != [] {
      var n := |path| - 1;
      if !IsSep(path[n]) && path[n] != '.' {
        StemPrefix(path[..n]);
      }
    }
  }
}
