/** The reference text handed to the ORAS parser, and how its tag is read back. */
module References {
  import opened Wrappers

  /** The reference of the requested library version: the configured container reference, a
      colon, and the version. The version is always used as a tag; there is no digest form. */
  function LibraryRef(containerRef: string, version: string): (r: string)
    ensures |r| == |containerRef| + 1 + |version|
    ensures r[..|containerRef|] == containerRef
    ensures r[|containerRef|] == ':'
    ensures r[|containerRef| + 1..] == version
  {
    containerRef + ":" + version
  }

  /** The text after the last colon of a reference text; `None` when the text has no colon.
      This is not the ORAS reference grammar (a registry port, as in "host:5000/lib", is also
      after a colon); it is only the inverse of the colon that `LibraryRef` appends. */
  function TagOf(s: string): (r: Option<string>)
    ensures r.None? <==> ':' !in s
    ensures r.Some? ==> && |r.value| < |s|
                        && ':' !in r.value
                        && s[|s| - |r.value| - 1] == ':'
                        && s[|s| - |r.value|..] == r.value
    decreases |s|
  {
    if |s| == 0 then None
    else if s[|s| - 1] == ':' then Some([])
    else match TagOf(s[..|s| - 1])
      case None => None
      case Some(t) =>
        assert s[..|s| - 1][|s| - 1 - |t|..] == t;
        assert s[|s| - |t| - 1..] == s[..|s| - 1][|s| - 1 - |t|..] + [s[|s| - 1]];
        Some(t + [s[|s| - 1]])
  }

  /** Reading the tag back from a library reference gives the version exactly when the version is
      a plain tag without a colon; a digest-like version such as "sha256:ab" is not read back. */
  lemma TagOfLibraryRef(containerRef: string, version: string)
    ensures TagOf(LibraryRef(containerRef, version)) == Some(version) <==> ':' !in version
  {
  }
}
