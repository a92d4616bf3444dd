/** Whole retrievals against a small registry: the wrapped bundle that loads, and an artifact of
    the wrong type that is turned away. */
module Scenarios {
  import opened Wrappers
  import opened Layout
  import opened Credentials
  import opened Manifests
  import opened Errors
  import opened Retrieval

  const Repo: string := "localhost:5000/lib"
  const Digest: string := "sha256:0123"
  const WorkspacePath: string := "/var/jenkins/workspace/p"

  /** A bundle packaged with one top-level folder around its `vars` directory. */
  function WrappedBundle(): Tree {
    map["mylib-1.0" := Dir(map["vars" := Dir(map["myFunc.groovy" := File("echo 'This is myFunc'")])])]
  }

  /** An anonymous registry that serves one manifest of the given artifact type for every
      reference, and stages `WrappedBundle` on every pull. */
  function ServingHost(artifactType: string): Host {
    Host(
      [], true, Some(WorkspacePath), None, true, "Jenkins",
      (reference: string) => true,
      (registry: Registry, reference: string) => Ok(Manifest(Some(artifactType), Digest, map[])),
      (folder: string) => folder,
      (registry: Registry, reference: string, path: string) => Ok(WrappedBundle()))
  }

  /** The bundle with its wrapper folder removed. */
  function Unwrapped(): Tree {
    map["vars" := Dir(map["myFunc.groovy" := File("echo 'This is myFunc'")])]
  }

  /** Normalisation drops the wrapper folder of `WrappedBundle`. */
  lemma NormaliseWrappedBundle()
    ensures Normalise(WrappedBundle()) == Ok(Unwrapped())
    ensures At(Unwrapped(), ["vars", "myFunc.groovy"]) == Some(File("echo 'This is myFunc'"))
    ensures "mylib-1.0" !in Unwrapped()
  {
    assert Sole(WrappedBundle()) == "mylib-1.0";
  }

  /** The manifest of the required type loads: `vars/myFunc.groovy` reaches the target without
      the wrapper folder, and the log names the repository, the digest and unknown provenance. */
  lemma RetrieveWrappedBundle()
    ensures var o := Retrieve(Retriever(Repo, None), "oras", "latest", false, "/target", ServingHost(ArtifactType));
      && o.result == Ok(Provenance(Digest, Unknown, Unknown))
      && o.effects[3] == CopyToTarget(Unwrapped(), "/target")
      && o.effects[5] == Print(LogLine(Repo, Provenance(Digest, Unknown, Unknown)))
  {
    var host := ServingHost(ArtifactType);
    var reference := References.LibraryRef(Repo, "latest");
    var manifest := Manifest(Some(ArtifactType), Digest, map[]);
    assert host.getManifest(Insecure, reference) == Ok(manifest);
    assert EnsureArtifactType(manifest) == Ok(());
    NormaliseWrappedBundle();
    var provenance := Provenance(Digest, Unknown, Unknown);
    assert ProvenanceOf(manifest) == provenance;
  }

  /** An artifact pushed as "application/octet-stream" is rejected after the fetch: no lease, no
      pull, nothing copied and no log line. */
  lemma RetrieveRejectsOctetStream()
    ensures var o := Retrieve(Retriever(Repo, None), "oras", "latest", false, "/target",
                              ServingHost("application/octet-stream"));
      && o.result == Err(InvalidArtifactType(Some("application/octet-stream")))
      && o.effects == [FetchManifest(Insecure, "localhost:5000/lib:latest")]
  {
    assert References.LibraryRef(Repo, "latest") == "localhost:5000/lib:latest";
    assert "application/octet-stream" != ArtifactType by {
      assert |"application/octet-stream"| != |ArtifactType|;
    }
  }
}
