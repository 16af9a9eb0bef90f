/** The records of imported skills that several stages of the import share. */
module ExternalCatalog {
  import opened Text
  import CanonicalRevision

  /** An optional property: absent, present with the value undefined, or present. */
  datatype Optional = Absent | ExplicitUndefined | Present(text: Str)

  datatype EvidenceKind = Manifest | Frontmatter | ExplicitInvocation

  datatype InvocationMode = Automatic | UserOnly

  datatype Dependency = Dependency(
    skillName: Str,
    targetSkillId: Optional,
    targetRevision: Optional,
    required: bool,
    evidenceKind: EvidenceKind,
    evidenceLocator: Str)

  /** Dependencies are ordered by the name of their target. */
  function BySkillName(collate: (Str, Str) -> bool): (Dependency, Dependency) -> bool {
    (a: Dependency, b: Dependency) => collate(a.skillName, b.skillName)
  }

  datatype Provenance = Provenance(
    repositoryId: int,
    owner: Str,
    repository: Str,
    commitSha: Str,
    skillPath: Str,
    sourceOwner: Str,
    spdxLicenseId: Str,
    licenseText: Str,
    licenseEvidencePath: Optional,
    licenseBlobSha: Optional,
    skillDeclaredSpdxId: Optional,
    noticeText: Optional,
    noticeEvidencePath: Optional,
    noticeBlobSha: Optional)

  datatype ImportedSkill = ImportedSkill(
    name: Str,
    description: Str,
    instructions: Str,
    invocationMode: InvocationMode,
    resources: seq<CanonicalRevision.ResourceInput>,
    dependencies: seq<Dependency>)

  /** What an import step can throw. */
  datatype ImportError =
    | SkillSchemaInvalid | DependencyMissingError | PublicationConflict
    | InvalidGitSha | InvalidRepositoryId | LicenseMissingError | ResourceOversizedError
    | DependencyOversized | BadTextError | UnsafeResourcePath | DuplicateResource
    | DuplicateDependency | NotCanonicalError | BundleOversizedError | IntegrityFailedError

  function EvidenceText(kind: EvidenceKind): Str {
    match kind
    case Manifest => Ascii("manifest")
    case Frontmatter => Ascii("frontmatter")
    case ExplicitInvocation => Ascii("explicit-invocation")
  }

  function ModeText(mode: InvocationMode): Str {
    match mode
    case Automatic => Ascii("automatic")
    case UserOnly => Ascii("user-only")
  }
}
