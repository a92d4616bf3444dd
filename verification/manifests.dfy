/** The manifest as the retriever reads it: the artifact-type gate and the provenance it reports. */
module Manifests {
  import opened Wrappers
  import opened Errors

  /** The only artifact media type the retriever accepts. */
  const ArtifactType: string := "application/vnd.jenkins.lib.manifest.v1+json"

  /** The OCI image annotation keys the provenance is read from. */
  const RevisionAnnotation: string := "org.opencontainers.image.revision"
  const SourceAnnotation: string := "org.opencontainers.image.source"

  /** What the provenance reports for an annotation the manifest does not carry. */
  const Unknown: string := "unknown"

  /** A fetched manifest: its artifact media type (`None` when it declares none), its digest and
      its annotations. */
  datatype Manifest = Manifest(artifactType: Option<string>, digest: string, annotations: map<string, string>)

  /** The audit facts reported after a successful retrieval. */
  datatype Provenance = Provenance(digest: string, revision: string, source: string)

  /** `ensureArtifactType`: the manifest passes exactly when its media type equals `ArtifactType`
      character for character; otherwise it is rejected with the media type it declared. */
  function EnsureArtifactType(m: Manifest): (r: Result<(), Error>)
    ensures r.Ok? <==> m.artifactType == Some(ArtifactType)
    ensures r.Err? ==> r.error == InvalidArtifactType(m.artifactType)
  {
    if m.artifactType == Some(ArtifactType) then Ok(()) else Err(InvalidArtifactType(m.artifactType))
  }

  /** The provenance of a manifest: its digest, and its revision and source annotations, each
      falling back to "unknown" when the manifest lacks it. */
  function ProvenanceOf(m: Manifest): (p: Provenance)
    ensures p.digest == m.digest
    ensures RevisionAnnotation in m.annotations ==> p.revision == m.annotations[RevisionAnnotation]
    ensures RevisionAnnotation !in m.annotations ==> p.revision == Unknown
    ensures SourceAnnotation in m.annotations ==> p.source == m.annotations[SourceAnnotation]
    ensures SourceAnnotation !in m.annotations ==> p.source == Unknown
  {
    Provenance(
      m.digest,
      if RevisionAnnotation in m.annotations then m.annotations[RevisionAnnotation] else Unknown,
      if SourceAnnotation in m.annotations then m.annotations[SourceAnnotation] else Unknown)
  }

  /** The success line written to the build log, without its trailing line separator. It names the
      configured container reference, not the version that was asked for. */
  function LogLine(containerRef: string, p: Provenance): (line: string)
    ensures var head := "Using library from " + containerRef + "@" + p.digest;
            |head| <= |line| && line[..|head|] == head
    ensures var tail := " and source " + p.source;
            |tail| <= |line| && line[|line| - |tail|..] == tail
    ensures var head := "Using library from " + containerRef + "@" + p.digest;
            var tail := " and source " + p.source;
            |head| + |tail| <= |line| && line[|head|..|line| - |tail|] == " at revision " + p.revision
  {
    "Using library from " + containerRef + "@" + p.digest
      + " at revision " + p.revision + " and source " + p.source
  }
}
