/** The retrieval of one library version: the order of its steps, the effects it has on the
    registry, the workspace and the build log, and where each failure stops it. */
module Retrieval {
  import opened Wrappers
  import opened Errors
  import opened Layout
  import opened Credentials
  import opened Manifests
  import opened References
  import opened Workspace

  /** The retriever's configuration: the container reference without a version, and the
      credentials ID, which may be null. */
  datatype Retriever = Retriever(containerRef: string, credentialsId: Option<string>)

  /** What the surrounding system answers when the retriever asks it something. */
  datatype Host = Host(
    /** The username/password credentials visible to the build's parent item. */
    credentials: seq<UsernamePassword>,
    /** Whether the build's parent item is a top-level item. */
    topLevel: bool,
    /** The workspace Jenkins assigns to that item, if it has one. */
    workspace: Option<string>,
    /** The workspace-list suffix system property, if set. */
    suffixProperty: Option<string>,
    /** Whether the controller has a computer (`Jenkins.toComputer()` is not null). */
    computerOnline: bool,
    /** The controller's display name, used in the offline messages. */
    displayName: string,
    /** Whether the ORAS parser accepts a reference text. */
    parses: string -> bool,
    /** The registry's answer to a manifest fetch: the manifest or a failure reason. */
    getManifest: (Registry, string) -> Result<Manifest, string>,
    /** The path of the lease the workspace list grants for a requested folder. */
    allocate: string -> string,
    /** The contents of the lease's directory after pulling the artifact into it, or a failure. */
    pullArtifact: (Registry, string, string) -> Result<Tree, string>)

  /** An observable step of a retrieval. */
  datatype Effect =
    | FetchManifest(registry: Registry, reference: string)
    | AcquireLease(path: string)
    | PullArtifact(registry: Registry, reference: string, path: string)
    | CopyToTarget(tree: Tree, target: string)
    | ReleaseLease(path: string)
    | Print(line: string)

  /** The effects of a retrieval, in order, and how it ended. */
  datatype Outcome = Outcome(effects: seq<Effect>, result: Result<Provenance, Error>)

  /** A manifest fetch that succeeded with a manifest of the required artifact type. */
  predicate Accepted(fetched: Result<Manifest, string>) {
    fetched.Ok? && EnsureArtifactType(fetched.value).Ok?
  }

  /** The only effect sequences a retrieval can produce: nothing; a manifest fetch alone; or a
      fetch, a lease, a pull into the lease's path, optionally the copy to the target, the
      release of that same lease, and after the copy the log line. */
  predicate FollowsProtocol(es: seq<Effect>) {
    || es == []
    || (|es| == 1 && es[0].FetchManifest?)
    || (&& |es| == 4
        && es[0].FetchManifest? && es[1].AcquireLease? && es[2].PullArtifact?
        && es[2].path == es[1].path && es[3] == ReleaseLease(es[1].path))
    || (&& |es| == 6
        && es[0].FetchManifest? && es[1].AcquireLease? && es[2].PullArtifact?
        && es[2].path == es[1].path && es[3].CopyToTarget?
        && es[4] == ReleaseLease(es[1].path) && es[5].Print?)
  }

  /** The steps taken while the staging lease is held: pull into the lease's path, normalise the
      layout, copy to the target; the lease is released on every exit, and the log line is
      written only after a successful copy. */
  function UnderLease(registry: Registry, reference: string, lease: string, target: string,
                      containerRef: string, provenance: Provenance, host: Host): (o: Outcome)
    ensures |o.effects| == 3 || |o.effects| == 5
    ensures o.effects[0] == AcquireLease(lease)
    ensures o.effects[1] == PullArtifact(registry, reference, lease)
    ensures o.result.Ok? <==> |o.effects| == 5
    ensures |o.effects| == 3 ==> o.effects[2] == ReleaseLease(lease)
    ensures |o.effects| == 5 ==>
              var staged := host.pullArtifact(registry, reference, lease);
              && staged.Ok?
              && o.effects[2].CopyToTarget?
              && Normalise(staged.value) == Ok(o.effects[2].tree)
              && o.effects[2].target == target
              && o.effects[3] == ReleaseLease(lease)
              && o.effects[4] == Print(LogLine(containerRef, provenance))
              && o.result == Ok(provenance)
    // A pull that fails ends the lease with the registry's failure.
    ensures var staged := host.pullArtifact(registry, reference, lease);
            staged.Err? ==> o.result == Err(RegistryFailure(staged.error))
    // A staged tree that cannot be normalised ends the lease with that error.
    ensures var staged := host.pullArtifact(registry, reference, lease);
            staged.Ok? && Normalise(staged.value).Err? ==> o.result == Err(Normalise(staged.value).error)
    // A pull and a normalisation that both succeed always reach the copy and the log line.
    ensures var staged := host.pullArtifact(registry, reference, lease);
            staged.Ok? && Normalise(staged.value).Ok? ==> |o.effects| == 5
  {
    var pulled := [AcquireLease(lease), PullArtifact(registry, reference, lease)];
    match host.pullArtifact(registry, reference, lease)
    case Err(reason) => Outcome(pulled + [ReleaseLease(lease)], Err(RegistryFailure(reason)))
    case Ok(staged) =>
      match Normalise(staged)
      case Err(e) => Outcome(pulled + [ReleaseLease(lease)], Err(e))
      case Ok(tree) =>
        Outcome(pulled + [CopyToTarget(tree, target), ReleaseLease(lease),
                          Print(LogLine(containerRef, provenance))],
                Ok(provenance))
  }

  /** `retrieve` with its changelog flag: build the registry client, parse the versioned
      reference, fetch and gate the manifest, find the staging folder, check the computer, then
      under a lease pull, normalise and copy to the target, and finally log the provenance. */
  function Retrieve(cfg: Retriever, name: string, version: string, changelog: bool, target: string,
                    host: Host): (o: Outcome)
    ensures FollowsProtocol(o.effects)
    ensures o.result.Ok? <==> |o.effects| == 6
    // An unresolvable credentials ID fails before the registry is contacted.
    ensures !Unset(cfg.credentialsId)
              && (forall i :: 0 <= i < |host.credentials| ==> host.credentials[i].id != cfg.credentialsId.value)
            ==> o == Outcome([], Err(CredentialsNotFound(cfg.credentialsId.value)))
    // The manifest is fetched with the configured client for the reference "containerRef:version".
    ensures |o.effects| > 0 ==>
              && Ok(o.effects[0].registry) == BuildRegistry(host.credentials, cfg.credentialsId)
              && o.effects[0].reference == LibraryRef(cfg.containerRef, version)
    // Nothing is pulled unless the fetched manifest has the required artifact type, and the pull
    // asks for the same reference with the same client.
    ensures |o.effects| >= 4 ==>
              && Accepted(host.getManifest(o.effects[0].registry, o.effects[0].reference))
              && o.effects[2].registry == o.effects[0].registry
              && o.effects[2].reference == o.effects[0].reference
    // A manifest of any other artifact type stops the retrieval right after the fetch.
    ensures var reference := LibraryRef(cfg.containerRef, version);
            forall registry | BuildRegistry(host.credentials, cfg.credentialsId) == Ok(registry) ::
              && host.parses(reference)
              && host.getManifest(registry, reference).Ok?
              && !Accepted(host.getManifest(registry, reference))
              ==> o == Outcome([FetchManifest(registry, reference)],
                               Err(InvalidArtifactType(host.getManifest(registry, reference).value.artifactType)))
    // Staging failures come before any lease or pull.
    ensures o.result.Err? && (o.result.error.NotTopLevel? || o.result.error.Offline?) ==> |o.effects| == 1
    // Without a computer nothing beyond the manifest fetch happens.
    ensures !host.computerOnline ==> |o.effects| <= 1
    // A reference the parser refuses fails before the registry is contacted.
    ensures var reference := LibraryRef(cfg.containerRef, version);
            BuildRegistry(host.credentials, cfg.credentialsId).Ok? && !host.parses(reference)
            ==> o == Outcome([], Err(MalformedReference(reference)))
    // A failed manifest fetch ends the retrieval with the registry's failure.
    ensures var reference := LibraryRef(cfg.containerRef, version);
            forall registry | BuildRegistry(host.credentials, cfg.credentialsId) == Ok(registry) ::
              && host.parses(reference)
              && host.getManifest(registry, reference).Err?
              ==> o == Outcome([FetchManifest(registry, reference)],
                               Err(RegistryFailure(host.getManifest(registry, reference).error)))
    // After an accepted manifest: a staging-folder error, or a missing computer, ends the
    // retrieval right after the fetch; otherwise the lease is taken and the pull happens.
    ensures var reference := LibraryRef(cfg.containerRef, version);
            var folder := DownloadFolder(host.topLevel, host.workspace, FilePathSuffix(host.suffixProperty),
                                         name, host.displayName);
            forall registry | BuildRegistry(host.credentials, cfg.credentialsId) == Ok(registry) ::
              host.parses(reference) && Accepted(host.getManifest(registry, reference)) ==>
                && (folder.Err? ==> o == Outcome([FetchManifest(registry, reference)], Err(folder.error)))
                && (folder.Ok? && !host.computerOnline ==>
                      o == Outcome([FetchManifest(registry, reference)], Err(Offline(host.displayName))))
                && (folder.Ok? && host.computerOnline ==> |o.effects| >= 4)
    // After the lease is taken, a pull and normalisation that succeed make the retrieval succeed.
    ensures |o.effects| >= 4 ==>
              var pull := o.effects[2];
              var staged := host.pullArtifact(pull.registry, pull.reference, pull.path);
              && (staged.Err? ==> o.result == Err(RegistryFailure(staged.error)))
              && (staged.Ok? && Normalise(staged.value).Err? ==> o.result == Err(Normalise(staged.value).error))
              && (staged.Ok? && Normalise(staged.value).Ok? ==> o.result.Ok?)
    // The lease is taken on the staging folder of this library.
    ensures |o.effects| >= 4 ==>
              var folder := DownloadFolder(host.topLevel, host.workspace, FilePathSuffix(host.suffixProperty),
                                           name, host.displayName);
              folder.Ok? && o.effects[1].path == host.allocate(folder.value)
    // The target receives the normalisation of what the pull staged.
    ensures |o.effects| == 6 ==>
              var pull := o.effects[2];
              var staged := host.pullArtifact(pull.registry, pull.reference, pull.path);
              && staged.Ok?
              && Normalise(staged.value) == Ok(o.effects[3].tree)
              && o.effects[3].target == target
    // A wrapper directory with nothing in it fails after the lease is released, before any copy.
    ensures o.result == Err(EmptyListing) ==> |o.effects| == 4
    // On success the provenance is the manifest's and the log line names the configured
    // reference, not the version.
    ensures o.result.Ok? ==>
              var fetched := host.getManifest(o.effects[0].registry, o.effects[0].reference);
              && fetched.Ok?
              && o.result.value == ProvenanceOf(fetched.value)
              && o.effects[5] == Print(LogLine(cfg.containerRef, o.result.value))
  {
    match BuildRegistry(host.credentials, cfg.credentialsId)
    case Err(e) => Outcome([], Err(e))
    case Ok(registry) =>
      var reference := LibraryRef(cfg.containerRef, version);
      if !host.parses(reference) then Outcome([], Err(MalformedReference(reference)))
      else
        var fetched := [FetchManifest(registry, reference)];
        match host.getManifest(registry, reference)
        case Err(reason) => Outcome(fetched, Err(RegistryFailure(reason)))
        case Ok(manifest) =>
          match EnsureArtifactType(manifest)
          case Err(e) => Outcome(fetched, Err(e))
          case Ok(_) =>
            match DownloadFolder(host.topLevel, host.workspace, FilePathSuffix(host.suffixProperty),
                                 name, host.displayName)
            case Err(e) => Outcome(fetched, Err(e))
            case Ok(folder) =>
              if !host.computerOnline then Outcome(fetched, Err(Offline(host.displayName)))
              else
                var leased := UnderLease(registry, reference, host.allocate(folder), target,
                                         cfg.containerRef, ProvenanceOf(manifest), host);
                Outcome(fetched + leased.effects, leased.result)
  }

  /** `retrieve` without a changelog flag: the same retrieval, whatever the flag would have been. */
  function RetrieveWithoutChangelog(cfg: Retriever, name: string, version: string, target: string,
                                    host: Host): (o: Outcome)
    ensures forall changelog: bool :: o == Retrieve(cfg, name, version, changelog, target, host)
  {
    Retrieve(cfg, name, version, false, target, host)
  }
}
