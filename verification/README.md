# ORAS pipeline-library retriever, modelled in Dafny

This project models the decision rules of `OrasRetriever`, the Jenkins library retriever that
loads a versioned shared-library bundle from an OCI registry through the ORAS client. Given a
library name and version it:

- builds a registry client, anonymous and insecure or authenticated by a stored username/password;
- fetches the manifest of `containerRef:version`;
- refuses any manifest whose artifact type is not `application/vnd.jenkins.lib.manifest.v1+json`;
- computes the staging folder `<workspace><suffix>libs/<name>` and takes a workspace lease on it;
- pulls the artifact into the lease's directory;
- promotes the children of a single wrapper directory to the root, unless that directory is
  `src`, `vars` or `resources`;
- copies the result to the target, releases the lease, and logs a provenance line.

Everything the retriever asks of Jenkins or of the registry is a field of a `Host` value: the
stored credentials, whether the item is top level, its workspace, the suffix system property,
whether a computer exists, the parser's verdict, the registry's manifest and pull answers, and
the lease path. A retrieval is the pure function `Retrieval.Retrieve`. It returns the ordered
effects (manifest fetch, lease acquire, pull, copy, lease release, log line) and either the
provenance or the error that ended it.

Modules, one per concern of the source file:

- `Wrappers`: `Option` and `Result`.
- `Errors`: one variant per exception that ends a retrieval.
- `Layout`: the staging tree and the layout normalisation.
- `Credentials`: credential lookup and the choice of registry mode.
- `Manifests`: the artifact-type gate, the provenance and the log line.
- `References`: the reference text and how its tag reads back.
- `Workspace`: the staging folder.
- `Retrieval`: the orchestration.
- `Scenarios`: two whole retrievals against a small registry.

Behaviour worth noting:

- The log line names the configured `containerRef`, which has no version, followed by `@` and
  the digest.
- The version is always appended as a tag. Nothing builds a digest selector.
- The staging folder is computed only after the manifest is fetched and accepted. A build that
  is not top level, or that has no workspace, has already contacted the registry when it fails.
- The lease comes from `WorkspaceList.allocate`, which in Jenkins hands out a variant of the
  folder when the folder is in use. The host chooses the lease path (`Host.allocate`).
- The staging directory is not cleared before the pull. Anything left from an earlier
  retrieval is part of the tree that `Host.pullArtifact` returns.
- After the wrapper's children are moved up, a trace statement lists the root again and reads
  its first entry. Java evaluates that argument even when tracing is off. An empty wrapper
  therefore fails with `IndexOutOfBoundsException` (`EmptyListing`). The lease is released and
  nothing is copied.

## Model

| member | source | states |
|---|---|---|
| `Layout.Normalise` | src/main/java/io/jenkins/plugins/pipeline/lib/oras/OrasRetriever.java:120-142 | Zero or several entries, a single file, or a single `src`/`vars`/`resources` directory leave the tree unchanged. For a single other directory, every node at path `p` of the result is the node at `wrapper/p` of the staged tree. The result is an error (`EmptyListing`) exactly when that wrapper is empty |
| `Credentials.FirstWithId` | src/main/java/io/jenkins/plugins/pipeline/lib/oras/OrasRetriever.java:217-222 | The lookup finds nothing exactly when no stored credential has the ID. Otherwise it returns the first stored credential with that ID |
| `Credentials.GetCredentials` | src/main/java/io/jenkins/plugins/pipeline/lib/oras/OrasRetriever.java:213-223 | A null or empty ID gives no credential. Any other ID gives the first stored credential with that ID, or none when no credential has it |
| `Credentials.BuildRegistry` | src/main/java/io/jenkins/plugins/pipeline/lib/oras/OrasRetriever.java:198-211 | A null or empty ID gives the insecure anonymous client. An ID that matches no stored credential is an error `CredentialsNotFound(id)` with the message `No credentials found with ID: <id>`, and this is the only error. Otherwise the client authenticates with the first matching credential's username and password. The client is insecure exactly when the ID is unset |
| `Manifests.EnsureArtifactType` | src/main/java/io/jenkins/plugins/pipeline/lib/oras/OrasRetriever.java:225-231 | A manifest passes if and only if its media type equals `application/vnd.jenkins.lib.manifest.v1+json` exactly. Otherwise it fails with the media type it declared, including when it declares none |
| `Manifests.ProvenanceOf` | src/main/java/io/jenkins/plugins/pipeline/lib/oras/OrasRetriever.java:98-100 | The digest is the manifest's digest. Revision and source are the annotations when present and the literal `unknown` when absent |
| `Manifests.LogLine` | src/main/java/io/jenkins/plugins/pipeline/lib/oras/OrasRetriever.java:148-151 | The line is exactly `Using library from <containerRef>@<digest>`, then ` at revision <revision>`, then ` and source <source>`, each part pinned at its position |
| `References.LibraryRef` | src/main/java/io/jenkins/plugins/pipeline/lib/oras/OrasRetriever.java:92-93 | The reference is the configured container reference, one colon, then the version. Both parts can be cut back out at fixed positions |
| `References.TagOfLibraryRef` | src/main/java/io/jenkins/plugins/pipeline/lib/oras/OrasRetriever.java:92-93 | Reading the tag after the last colon of the reference gives back the version if and only if the version has no colon. So a digest-like version is not read back as itself |
| `References.TagOf` | src/main/java/io/jenkins/plugins/pipeline/lib/oras/OrasRetriever.java:92-93 | The text after the last colon of a reference, which has no colon, directly follows a colon and ends the text; none exactly when the text has no colon. It is the inverse of the appended `:version`, not the ORAS reference grammar |
| `Workspace.FilePathSuffix` | src/main/java/io/jenkins/plugins/pipeline/lib/oras/OrasRetriever.java:194-196 | The suffix is the system property when it is set and `@` otherwise |
| `Workspace.DownloadFolder` | src/main/java/io/jenkins/plugins/pipeline/lib/oras/OrasRetriever.java:180-192 | A non-top-level item fails with `NotTopLevel`. A missing workspace fails with `Offline`. Otherwise the folder is `<workspace><suffix>libs/` followed by exactly the library name |
| `Workspace.DownloadFolderSeparatesLibraries` | src/main/java/io/jenkins/plugins/pipeline/lib/oras/OrasRetriever.java:187 | Two different plain library names (no `/`, not empty, not `.` or `..`) of one job never get the same staging folder |
| `Retrieval.UnderLease` | src/main/java/io/jenkins/plugins/pipeline/lib/oras/OrasRetriever.java:108-151 | Inside the lease, the pull always comes first and the lease is always released. A failed pull ends with the registry's failure; a tree that cannot be normalised ends with that error; in both cases there is no copy and no log line. A pull and normalisation that both succeed always lead to the copy of the normalised tree to the target, then the release, then the log line, and success |
| `Retrieval.Retrieve` | src/main/java/io/jenkins/plugins/pipeline/lib/oras/OrasRetriever.java:74-152 | The effects are none, the fetch alone, fetch-lease-pull-release, or all of fetch, lease, pull, copy, release and log in that order. The run succeeds exactly when the log line is written. An unresolvable credentials ID, or a reference the parser refuses, fails with no effect at all. The fetch uses the configured client and `containerRef:version`; a failed fetch ends with the registry's failure. Nothing is pulled unless the manifest is accepted, and a rejected manifest stops right after the fetch. After an accepted manifest, a non-top-level item, a missing workspace or a missing computer ends the run right after the fetch with `NotTopLevel` or `Offline`; otherwise the lease on this library's staging folder is taken and the pull happens. A pull and normalisation that succeed make the run succeed, and the target then receives the normalisation of what the pull staged. The logged provenance is the manifest's, with the configured reference |
| `Retrieval.RetrieveWithoutChangelog` | src/main/java/io/jenkins/plugins/pipeline/lib/oras/OrasRetriever.java:154-163 | The five-argument form behaves like the six-argument form for either value of the changelog flag |
| `Scenarios.NormaliseWrappedBundle` | src/main/java/io/jenkins/plugins/pipeline/lib/oras/OrasRetriever.java:121-132 | A bundle wrapped in `mylib-1.0/` is normalised to one whose `vars/myFunc.groovy` sits at the root, with no `mylib-1.0` entry left |
| `Scenarios.RetrieveWrappedBundle` | src/main/java/io/jenkins/plugins/pipeline/lib/oras/OrasRetriever.java:95-151 | A manifest with the required artifact type loads. The target receives the unwrapped bundle. The log line names the repository and digest, and revision and source are `unknown` |
| `Scenarios.RetrieveRejectsOctetStream` | src/main/java/io/jenkins/plugins/pipeline/lib/oras/OrasRetriever.java:95-96 | An `application/octet-stream` artifact fails with `InvalidArtifactType` after only the manifest fetch: no lease, no pull, no copy, no log line |

## Left out

- Registry I/O. The ORAS client's network calls (`getManifest`, `pullArtifact`) and the digest
  verification inside the pull are foreign library code. They appear only as the answers in `Host`.
- The ORAS reference grammar. `ContainerRef.parse` lives in the ORAS library, so the model only
  has a verdict, `Host.parses`. Its failure is `MalformedReference`.
- Workspace lease allocation. The blocking or variant-naming of `WorkspaceList.allocate` is
  cross-build concurrency. The trace only records acquire-before-pull and release on every exit.
- `FilePath.moveAllChildrenTo`. It is taken to move every child up and then delete the wrapper,
  as its Jenkins contract says; its implementation is not part of this model. A child that has
  the same name as its wrapper relies on filesystem rename behaviour, which is not modelled.
- `FilePath.copyRecursiveTo`. How it merges into an existing target is not modelled. The target
  is only recorded as receiving the normalised tree.
- Filesystem failures. Failures of `list`, the move, the copy, and interrupted I/O are not modelled.
- `FilePath.child`. It is modelled as joining with `/`. Separator choice, absolute names and
  path normalisation are Jenkins path handling that is not part of this model.
- The annotation keys. They are the OCI image-spec keys `org.opencontainers.image.revision` and
  `org.opencontainers.image.source`, which the ORAS `Const` names. An annotation present with a
  null value is not modelled.
- `CredentialsProvider.track` and the SLF4J trace and debug output. They have no effect on the
  outcome. The one exception is the eager `list().get(0)` described above.
- The message text of `ensureArtifactType`. The error carries the media type that was found.
- The trailing line separator printed by `%n` after the log line. It is platform-dependent.
- The changelog flag. The source ignores it.
- `DescriptorImpl`. UI list-box population and permission checks are not part of retrieval.
