/**
 The schema tables of src/wudup/db_schema.py: the columns each version expects, and the
 columns its SQL declares.
 */
module Schema {
  import opened Ordering

  datatype TableName =
    | SchemaMigrations | UpdateRuns | UpdateEvents | Snoozes | DependencySnoozes | ReleaseSkips
    | ServicePolicy | AutoUpdateScheduleRuns | KnownImages | PendingUpdates | ReleaseNoteCache
    | ReleaseNotificationHistory | SecurityScanCache | TagExclusionRules | WebUsers | WebSessions
    | WebSettings

  datatype ColumnName =
    | AppliedAt | AutoUpdate | AutoUpdateDaysJson | AutoUpdateTime | Basis | Body | Breaking
    | BreakingReasonsJson | CacheKey | CanonicalRegistry | CanonicalRepository | CreatedAt | CurrentTag
    | DbRevision | DbUpdatedAt | DesiredTag | Digest | DigestFinalImage | DigestProvenanceConfidence
    | DigestProvenanceSource | DigestResolvedTag | DigestSourceImage | DigestTargetDigest | DigestWatchTag
    | DisabledAt | DryRun | Error | ErrorCode | ErrorMessage | ExpiresAt | FindingsJson | FinishedAt
    | FixableCountsJson | Id | IdHash | IdentityStatus | Image | ImageId | ImageRepo | IndexDigest
    | Key | LastAttemptedAt | LastAuditRunId | LastSeenAt | LastSentAt | LineNo | LinksJson | LogFile
    | ManifestDigest | MatchType | MetadataJson | Mode | Name | NewDigest | NewImageId
    | NotificationKey | OldDigest | OldImageId | PasswordHash | PasswordUpdatedAt | Platform
    | PlatformArchitecture | PlatformOs | PlatformSource | PlatformVariant | Provider | PublishedAt
    | Raw | Reason | RegexFragment | ReleaseTag | ReportedDigest | RequestKey | RequestedRef
    | RevokedAt | Role | RunId | Scanner | ScannerSchema | ScannerVersion | ScheduleKey | ScheduledFor
    | Scope | SendCount | ServiceKey | ServiceName | SeverityCountsJson | SkippedTag
    | SnoozeDefaultSeconds | SnoozedUntil | StackName | StartedAt | State | Status | StatusReason
    | SubjectId | Tag | TargetDigest | TargetImage | TargetTag | Title | UnfixedCount | UpdateMode
    | UpdatedAt | UpstreamRepo | UserAgentHash | UserId | Username | Value | Verdict | Version
    | WaitForServiceKey | WarningsJson | WudFile

  datatype ColumnType = TextType | IntegerType

  datatype Default =
    | EmptyText | Zero | One | EmptyObject | EmptyArray | ReleaseText | ActiveText | AdminText

  /** One row of `pragma_table_info`: name, type, "notnull", default and primary key. */
  datatype Column = Column(
    name: ColumnName, columnType: ColumnType, notNull: bool, default: Option<Default>, primaryKey: bool)

  // ---------- The expected columns ----------

  const SECURITY_SCAN_CACHE_FINDINGS_COLUMN := Column(FindingsJson, TextType, true, Some(EmptyArray), false)
  const RELEASE_NOTE_BODY_COLUMN := Column(Body, TextType, true, Some(EmptyText), false)
  const RELEASE_NOTE_TARGET_DIGEST_COLUMN := Column(TargetDigest, TextType, true, Some(EmptyText), false)

  const DIGEST_PROVENANCE_SQL_COLUMNS: seq<ColumnName> := [
    DigestSourceImage, DigestResolvedTag, DigestWatchTag, DigestTargetDigest, DigestFinalImage,
    DigestProvenanceSource, DigestProvenanceConfidence]

  const DIGEST_PROVENANCE_COLUMN_SCHEMA: seq<Column> := [
    Column(DigestSourceImage, TextType, true, Some(EmptyText), false),
    Column(DigestResolvedTag, TextType, true, Some(EmptyText), false),
    Column(DigestWatchTag, TextType, true, Some(EmptyText), false),
    Column(DigestTargetDigest, TextType, true, Some(EmptyText), false),
    Column(DigestFinalImage, TextType, true, Some(EmptyText), false),
    Column(DigestProvenanceSource, TextType, true, Some(EmptyText), false),
    Column(DigestProvenanceConfidence, TextType, true, Some(EmptyText), false)]

  /** `EXPECTED_SCHEMA` */
  function ExpectedSchema(t: TableName): seq<Column> {
    match t
    case SchemaMigrations => [
        Column(Version, IntegerType, false, None, true), Column(Name, TextType, true, None, false),
        Column(AppliedAt, TextType, true, None, false)]
    case UpdateRuns => [
        Column(Id, IntegerType, false, None, true), Column(StartedAt, TextType, true, None, false),
        Column(FinishedAt, TextType, false, None, false), Column(Status, TextType, true, None, false),
        Column(DryRun, IntegerType, true, Some(Zero), false),
        Column(Mode, TextType, true, Some(EmptyText), false),
        Column(WudFile, TextType, true, Some(EmptyText), false),
        Column(LogFile, TextType, true, Some(EmptyText), false),
        Column(MetadataJson, TextType, true, Some(EmptyObject), false)]
    case UpdateEvents => [
        Column(Id, IntegerType, false, None, true), Column(RunId, IntegerType, true, None, false),
        Column(CreatedAt, TextType, true, None, false), Column(ServiceName, TextType, true, None, false),
        Column(StackName, TextType, true, Some(EmptyText), false), Column(Image, TextType, true, None, false),
        Column(TargetImage, TextType, true, Some(EmptyText), false),
        Column(OldImageId, TextType, true, Some(EmptyText), false),
        Column(NewImageId, TextType, true, Some(EmptyText), false),
        Column(OldDigest, TextType, true, Some(EmptyText), false),
        Column(NewDigest, TextType, true, Some(EmptyText), false), Column(Status, TextType, true, None, false),
        Column(MetadataJson, TextType, true, Some(EmptyObject), false)] + DIGEST_PROVENANCE_COLUMN_SCHEMA
    case Snoozes => [
        Column(Id, IntegerType, false, None, true), Column(ServiceKey, TextType, true, None, false),
        Column(SnoozedUntil, TextType, true, None, false),
        Column(Reason, TextType, true, Some(EmptyText), false), Column(CreatedAt, TextType, true, None, false),
        Column(MetadataJson, TextType, true, Some(EmptyObject), false)]
    case DependencySnoozes => [
        Column(Id, IntegerType, false, None, true), Column(ServiceKey, TextType, true, None, false),
        Column(WaitForServiceKey, TextType, true, None, false),
        Column(Reason, TextType, true, Some(EmptyText), false), Column(CreatedAt, TextType, true, None, false),
        Column(MetadataJson, TextType, true, Some(EmptyObject), false)]
    case ReleaseSkips => [
        Column(Id, IntegerType, false, None, true), Column(ServiceKey, TextType, true, None, false),
        Column(ImageRepo, TextType, true, Some(EmptyText), false), Column(Basis, TextType, true, None, false),
        Column(Value, TextType, true, None, false), Column(Scope, TextType, true, Some(ReleaseText), false),
        Column(SkippedTag, TextType, true, Some(EmptyText), false),
        Column(Reason, TextType, true, Some(EmptyText), false), Column(CreatedAt, TextType, true, None, false),
        Column(MetadataJson, TextType, true, Some(EmptyObject), false)]
    case ServicePolicy => [
        Column(ServiceKey, TextType, false, None, true),
        Column(UpdateMode, TextType, true, Some(EmptyText), false),
        Column(AutoUpdate, IntegerType, true, Some(One), false),
        Column(SnoozeDefaultSeconds, IntegerType, false, None, false),
        Column(CreatedAt, TextType, true, None, false), Column(UpdatedAt, TextType, true, None, false),
        Column(MetadataJson, TextType, true, Some(EmptyObject), false),
        Column(AutoUpdateTime, TextType, false, None, false),
        Column(AutoUpdateDaysJson, TextType, true, Some(EmptyArray), false)]
    case AutoUpdateScheduleRuns => [
        Column(ScheduleKey, TextType, false, None, true), Column(ServiceKey, TextType, true, None, false),
        Column(ScheduledFor, TextType, true, None, false), Column(RunId, IntegerType, false, None, false),
        Column(Status, TextType, true, None, false), Column(CreatedAt, TextType, true, None, false),
        Column(UpdatedAt, TextType, true, None, false),
        Column(MetadataJson, TextType, true, Some(EmptyObject), false)]
    case KnownImages => [
        Column(ServiceKey, TextType, false, None, true), Column(Image, TextType, true, None, false),
        Column(ImageId, TextType, true, Some(EmptyText), false),
        Column(Digest, TextType, true, Some(EmptyText), false), Column(UpdatedAt, TextType, true, None, false),
        Column(MetadataJson, TextType, true, Some(EmptyObject), false)] + DIGEST_PROVENANCE_COLUMN_SCHEMA
    case PendingUpdates => [
        Column(Id, IntegerType, false, None, true), Column(RunId, IntegerType, true, None, false),
        Column(LineNo, IntegerType, true, None, false), Column(Raw, TextType, true, None, false),
        Column(Image, TextType, true, None, false),
        Column(TargetDigest, TextType, true, Some(EmptyText), false),
        Column(DesiredTag, TextType, true, Some(EmptyText), false),
        Column(ServiceKey, TextType, true, Some(EmptyText), false),
        Column(StackName, TextType, true, Some(EmptyText), false),
        Column(ServiceName, TextType, true, Some(EmptyText), false),
        Column(Status, TextType, true, None, false),
        Column(StatusReason, TextType, true, Some(EmptyText), false),
        Column(CreatedAt, TextType, true, None, false), Column(UpdatedAt, TextType, true, None, false),
        Column(MetadataJson, TextType, true, Some(EmptyObject), false)] + DIGEST_PROVENANCE_COLUMN_SCHEMA
    case ReleaseNoteCache => [
        Column(CacheKey, TextType, false, None, true), Column(Provider, TextType, true, None, false),
        Column(ImageRepo, TextType, true, Some(EmptyText), false),
        Column(UpstreamRepo, TextType, true, Some(EmptyText), false),
        Column(CurrentTag, TextType, true, Some(EmptyText), false),
        Column(TargetTag, TextType, true, Some(EmptyText), false), Column(Status, TextType, true, None, false),
        Column(ReleaseTag, TextType, true, Some(EmptyText), false),
        Column(Title, TextType, true, Some(EmptyText), false),
        Column(PublishedAt, TextType, true, Some(EmptyText), false),
        Column(Breaking, IntegerType, true, Some(Zero), false),
        Column(BreakingReasonsJson, TextType, true, Some(EmptyArray), false),
        Column(LinksJson, TextType, true, Some(EmptyArray), false),
        Column(Error, TextType, true, Some(EmptyText), false), Column(CreatedAt, TextType, true, None, false),
        Column(UpdatedAt, TextType, true, None, false),
        Column(MetadataJson, TextType, true, Some(EmptyObject), false)] + [RELEASE_NOTE_BODY_COLUMN] + [RELEASE_NOTE_TARGET_DIGEST_COLUMN]
    case ReleaseNotificationHistory => [
        Column(NotificationKey, TextType, false, None, true),
        Column(Mode, TextType, true, Some(EmptyText), false), Column(Status, TextType, true, None, false),
        Column(LastAttemptedAt, TextType, true, None, false),
        Column(LastSentAt, TextType, true, Some(EmptyText), false),
        Column(SendCount, IntegerType, true, Some(Zero), false),
        Column(LastAuditRunId, IntegerType, true, Some(Zero), false),
        Column(MetadataJson, TextType, true, Some(EmptyObject), false)]
    case SecurityScanCache => [
        Column(CacheKey, TextType, false, None, true), Column(RequestKey, TextType, true, None, false),
        Column(SubjectId, TextType, true, Some(EmptyText), false),
        Column(CanonicalRegistry, TextType, true, Some(EmptyText), false),
        Column(CanonicalRepository, TextType, true, Some(EmptyText), false),
        Column(RequestedRef, TextType, true, Some(EmptyText), false),
        Column(ReportedDigest, TextType, true, Some(EmptyText), false),
        Column(IndexDigest, TextType, true, Some(EmptyText), false),
        Column(ManifestDigest, TextType, true, Some(EmptyText), false),
        Column(Platform, TextType, true, Some(EmptyText), false),
        Column(PlatformOs, TextType, true, Some(EmptyText), false),
        Column(PlatformArchitecture, TextType, true, Some(EmptyText), false),
        Column(PlatformVariant, TextType, true, Some(EmptyText), false),
        Column(PlatformSource, TextType, true, Some(EmptyText), false),
        Column(IdentityStatus, TextType, true, Some(EmptyText), false),
        Column(State, TextType, true, None, false), Column(Verdict, TextType, true, Some(EmptyText), false),
        Column(Scanner, TextType, true, Some(EmptyText), false),
        Column(ScannerVersion, TextType, true, Some(EmptyText), false),
        Column(ScannerSchema, TextType, true, Some(EmptyText), false),
        Column(DbRevision, TextType, true, Some(EmptyText), false),
        Column(DbUpdatedAt, TextType, true, Some(EmptyText), false),
        Column(SeverityCountsJson, TextType, true, Some(EmptyObject), false),
        Column(FixableCountsJson, TextType, true, Some(EmptyObject), false),
        Column(UnfixedCount, IntegerType, true, Some(Zero), false),
        Column(WarningsJson, TextType, true, Some(EmptyArray), false),
        Column(ErrorCode, TextType, true, Some(EmptyText), false),
        Column(ErrorMessage, TextType, true, Some(EmptyText), false),
        Column(CreatedAt, TextType, true, None, false), Column(UpdatedAt, TextType, true, None, false),
        Column(MetadataJson, TextType, true, Some(EmptyObject), false)] + [SECURITY_SCAN_CACHE_FINDINGS_COLUMN]
    case TagExclusionRules => [
        Column(Id, IntegerType, false, None, true), Column(Scope, TextType, true, None, false),
        Column(ImageRepo, TextType, true, None, false),
        Column(ServiceKey, TextType, true, Some(EmptyText), false),
        Column(MatchType, TextType, true, None, false), Column(Tag, TextType, true, None, false),
        Column(RegexFragment, TextType, true, None, false),
        Column(Status, TextType, true, Some(ActiveText), false),
        Column(CreatedAt, TextType, true, None, false), Column(UpdatedAt, TextType, true, None, false),
        Column(MetadataJson, TextType, true, Some(EmptyObject), false)]
    case WebUsers => [
        Column(Id, IntegerType, false, None, true), Column(Username, TextType, true, None, false),
        Column(PasswordHash, TextType, true, None, false),
        Column(Role, TextType, true, Some(AdminText), false), Column(CreatedAt, TextType, true, None, false),
        Column(PasswordUpdatedAt, TextType, true, None, false), Column(DisabledAt, TextType, false, None, false)]
    case WebSessions => [
        Column(IdHash, TextType, false, None, true), Column(UserId, IntegerType, true, None, false),
        Column(CreatedAt, TextType, true, None, false), Column(LastSeenAt, TextType, true, None, false),
        Column(ExpiresAt, TextType, true, None, false),
        Column(UserAgentHash, TextType, true, Some(EmptyText), false),
        Column(RevokedAt, TextType, false, None, false)]
    case WebSettings => [
        Column(Key, TextType, false, None, true), Column(Value, TextType, true, None, false),
        Column(UpdatedAt, TextType, true, None, false)]
  }

  // ---------- The columns the SQL declares ----------

  function KeyColumn(name: ColumnName, columnType: ColumnType): Column {
    Column(name, columnType, false, None, true)
  }

  function RequiredColumn(name: ColumnName, columnType: ColumnType): Column {
    Column(name, columnType, true, None, false)
  }

  function DefaultColumn(name: ColumnName, columnType: ColumnType, default: Default): Column {
    Column(name, columnType, true, Some(default), false)
  }

  function OptionalColumn(name: ColumnName, columnType: ColumnType): Column {
    Column(name, columnType, false, None, false)
  }

  /** The `CREATE TABLE` statements of a new database. */
  function CreatedColumns(t: TableName): seq<Column> {
    match t
    case SchemaMigrations => [
        KeyColumn(Version, IntegerType), RequiredColumn(Name, TextType), RequiredColumn(AppliedAt, TextType)]
    case UpdateRuns => [
        KeyColumn(Id, IntegerType), RequiredColumn(StartedAt, TextType), OptionalColumn(FinishedAt, TextType),
        RequiredColumn(Status, TextType), DefaultColumn(DryRun, IntegerType, Zero),
        DefaultColumn(Mode, TextType, EmptyText), DefaultColumn(WudFile, TextType, EmptyText),
        DefaultColumn(LogFile, TextType, EmptyText), DefaultColumn(MetadataJson, TextType, EmptyObject)]
    case UpdateEvents => [
        KeyColumn(Id, IntegerType), RequiredColumn(RunId, IntegerType), RequiredColumn(CreatedAt, TextType),
        RequiredColumn(ServiceName, TextType), DefaultColumn(StackName, TextType, EmptyText),
        RequiredColumn(Image, TextType), DefaultColumn(TargetImage, TextType, EmptyText),
        DefaultColumn(OldImageId, TextType, EmptyText), DefaultColumn(NewImageId, TextType, EmptyText),
        DefaultColumn(OldDigest, TextType, EmptyText), DefaultColumn(NewDigest, TextType, EmptyText),
        RequiredColumn(Status, TextType), DefaultColumn(MetadataJson, TextType, EmptyObject),
        DefaultColumn(DigestSourceImage, TextType, EmptyText),
        DefaultColumn(DigestResolvedTag, TextType, EmptyText),
        DefaultColumn(DigestWatchTag, TextType, EmptyText),
        DefaultColumn(DigestTargetDigest, TextType, EmptyText),
        DefaultColumn(DigestFinalImage, TextType, EmptyText),
        DefaultColumn(DigestProvenanceSource, TextType, EmptyText),
        DefaultColumn(DigestProvenanceConfidence, TextType, EmptyText)]
    case Snoozes => [
        KeyColumn(Id, IntegerType), RequiredColumn(ServiceKey, TextType),
        RequiredColumn(SnoozedUntil, TextType), DefaultColumn(Reason, TextType, EmptyText),
        RequiredColumn(CreatedAt, TextType), DefaultColumn(MetadataJson, TextType, EmptyObject)]
    case DependencySnoozes => [
        KeyColumn(Id, IntegerType), RequiredColumn(ServiceKey, TextType),
        RequiredColumn(WaitForServiceKey, TextType), DefaultColumn(Reason, TextType, EmptyText),
        RequiredColumn(CreatedAt, TextType), DefaultColumn(MetadataJson, TextType, EmptyObject)]
    case ReleaseSkips => [
        KeyColumn(Id, IntegerType), RequiredColumn(ServiceKey, TextType),
        DefaultColumn(ImageRepo, TextType, EmptyText), RequiredColumn(Basis, TextType),
        RequiredColumn(Value, TextType), DefaultColumn(Scope, TextType, ReleaseText),
        DefaultColumn(SkippedTag, TextType, EmptyText), DefaultColumn(Reason, TextType, EmptyText),
        RequiredColumn(CreatedAt, TextType), DefaultColumn(MetadataJson, TextType, EmptyObject)]
    case ServicePolicy => [
        KeyColumn(ServiceKey, TextType), DefaultColumn(UpdateMode, TextType, EmptyText),
        DefaultColumn(AutoUpdate, IntegerType, One), OptionalColumn(SnoozeDefaultSeconds, IntegerType),
        RequiredColumn(CreatedAt, TextType), RequiredColumn(UpdatedAt, TextType),
        DefaultColumn(MetadataJson, TextType, EmptyObject), OptionalColumn(AutoUpdateTime, TextType),
        DefaultColumn(AutoUpdateDaysJson, TextType, EmptyArray)]
    case AutoUpdateScheduleRuns => [
        KeyColumn(ScheduleKey, TextType), RequiredColumn(ServiceKey, TextType),
        RequiredColumn(ScheduledFor, TextType), OptionalColumn(RunId, IntegerType),
        RequiredColumn(Status, TextType), RequiredColumn(CreatedAt, TextType),
        RequiredColumn(UpdatedAt, TextType), DefaultColumn(MetadataJson, TextType, EmptyObject)]
    case KnownImages => [
        KeyColumn(ServiceKey, TextType), RequiredColumn(Image, TextType),
        DefaultColumn(ImageId, TextType, EmptyText), DefaultColumn(Digest, TextType, EmptyText),
        RequiredColumn(UpdatedAt, TextType), DefaultColumn(MetadataJson, TextType, EmptyObject),
        DefaultColumn(DigestSourceImage, TextType, EmptyText),
        DefaultColumn(DigestResolvedTag, TextType, EmptyText),
        DefaultColumn(DigestWatchTag, TextType, EmptyText),
        DefaultColumn(DigestTargetDigest, TextType, EmptyText),
        DefaultColumn(DigestFinalImage, TextType, EmptyText),
        DefaultColumn(DigestProvenanceSource, TextType, EmptyText),
        DefaultColumn(DigestProvenanceConfidence, TextType, EmptyText)]
    case PendingUpdates => [
        KeyColumn(Id, IntegerType), RequiredColumn(RunId, IntegerType), RequiredColumn(LineNo, IntegerType),
        RequiredColumn(Raw, TextType), RequiredColumn(Image, TextType),
        DefaultColumn(TargetDigest, TextType, EmptyText), DefaultColumn(DesiredTag, TextType, EmptyText),
        DefaultColumn(ServiceKey, TextType, EmptyText), DefaultColumn(StackName, TextType, EmptyText),
        DefaultColumn(ServiceName, TextType, EmptyText), RequiredColumn(Status, TextType),
        DefaultColumn(StatusReason, TextType, EmptyText), RequiredColumn(CreatedAt, TextType),
        RequiredColumn(UpdatedAt, TextType), DefaultColumn(MetadataJson, TextType, EmptyObject),
        DefaultColumn(DigestSourceImage, TextType, EmptyText),
        DefaultColumn(DigestResolvedTag, TextType, EmptyText),
        DefaultColumn(DigestWatchTag, TextType, EmptyText),
        DefaultColumn(DigestTargetDigest, TextType, EmptyText),
        DefaultColumn(DigestFinalImage, TextType, EmptyText),
        DefaultColumn(DigestProvenanceSource, TextType, EmptyText),
        DefaultColumn(DigestProvenanceConfidence, TextType, EmptyText)]
    case ReleaseNoteCache => [
        KeyColumn(CacheKey, TextType), RequiredColumn(Provider, TextType),
        DefaultColumn(ImageRepo, TextType, EmptyText), DefaultColumn(UpstreamRepo, TextType, EmptyText),
        DefaultColumn(CurrentTag, TextType, EmptyText), DefaultColumn(TargetTag, TextType, EmptyText),
        RequiredColumn(Status, TextType), DefaultColumn(ReleaseTag, TextType, EmptyText),
        DefaultColumn(Title, TextType, EmptyText), DefaultColumn(PublishedAt, TextType, EmptyText),
        DefaultColumn(Breaking, IntegerType, Zero), DefaultColumn(BreakingReasonsJson, TextType, EmptyArray),
        DefaultColumn(LinksJson, TextType, EmptyArray), DefaultColumn(Error, TextType, EmptyText),
        RequiredColumn(CreatedAt, TextType), RequiredColumn(UpdatedAt, TextType),
        DefaultColumn(MetadataJson, TextType, EmptyObject), DefaultColumn(Body, TextType, EmptyText),
        DefaultColumn(TargetDigest, TextType, EmptyText)]
    case ReleaseNotificationHistory => [
        KeyColumn(NotificationKey, TextType), DefaultColumn(Mode, TextType, EmptyText),
        RequiredColumn(Status, TextType), RequiredColumn(LastAttemptedAt, TextType),
        DefaultColumn(LastSentAt, TextType, EmptyText), DefaultColumn(SendCount, IntegerType, Zero),
        DefaultColumn(LastAuditRunId, IntegerType, Zero), DefaultColumn(MetadataJson, TextType, EmptyObject)]
    case SecurityScanCache => [
        KeyColumn(CacheKey, TextType), RequiredColumn(RequestKey, TextType),
        DefaultColumn(SubjectId, TextType, EmptyText), DefaultColumn(CanonicalRegistry, TextType, EmptyText),
        DefaultColumn(CanonicalRepository, TextType, EmptyText),
        DefaultColumn(RequestedRef, TextType, EmptyText), DefaultColumn(ReportedDigest, TextType, EmptyText),
        DefaultColumn(IndexDigest, TextType, EmptyText), DefaultColumn(ManifestDigest, TextType, EmptyText),
        DefaultColumn(Platform, TextType, EmptyText), DefaultColumn(PlatformOs, TextType, EmptyText),
        DefaultColumn(PlatformArchitecture, TextType, EmptyText),
        DefaultColumn(PlatformVariant, TextType, EmptyText),
        DefaultColumn(PlatformSource, TextType, EmptyText), DefaultColumn(IdentityStatus, TextType, EmptyText),
        RequiredColumn(State, TextType), DefaultColumn(Verdict, TextType, EmptyText),
        DefaultColumn(Scanner, TextType, EmptyText), DefaultColumn(ScannerVersion, TextType, EmptyText),
        DefaultColumn(ScannerSchema, TextType, EmptyText), DefaultColumn(DbRevision, TextType, EmptyText),
        DefaultColumn(DbUpdatedAt, TextType, EmptyText),
        DefaultColumn(SeverityCountsJson, TextType, EmptyObject),
        DefaultColumn(FixableCountsJson, TextType, EmptyObject),
        DefaultColumn(UnfixedCount, IntegerType, Zero), DefaultColumn(WarningsJson, TextType, EmptyArray),
        DefaultColumn(ErrorCode, TextType, EmptyText), DefaultColumn(ErrorMessage, TextType, EmptyText),
        RequiredColumn(CreatedAt, TextType), RequiredColumn(UpdatedAt, TextType),
        DefaultColumn(MetadataJson, TextType, EmptyObject), DefaultColumn(FindingsJson, TextType, EmptyArray)]
    case TagExclusionRules => [
        KeyColumn(Id, IntegerType), RequiredColumn(Scope, TextType), RequiredColumn(ImageRepo, TextType),
        DefaultColumn(ServiceKey, TextType, EmptyText), RequiredColumn(MatchType, TextType),
        RequiredColumn(Tag, TextType), RequiredColumn(RegexFragment, TextType),
        DefaultColumn(Status, TextType, ActiveText), RequiredColumn(CreatedAt, TextType),
        RequiredColumn(UpdatedAt, TextType), DefaultColumn(MetadataJson, TextType, EmptyObject)]
    case WebUsers => [
        KeyColumn(Id, IntegerType), RequiredColumn(Username, TextType), RequiredColumn(PasswordHash, TextType),
        DefaultColumn(Role, TextType, AdminText), RequiredColumn(CreatedAt, TextType),
        RequiredColumn(PasswordUpdatedAt, TextType), OptionalColumn(DisabledAt, TextType)]
    case WebSessions => [
        KeyColumn(IdHash, TextType), RequiredColumn(UserId, IntegerType), RequiredColumn(CreatedAt, TextType),
        RequiredColumn(LastSeenAt, TextType), RequiredColumn(ExpiresAt, TextType),
        DefaultColumn(UserAgentHash, TextType, EmptyText), OptionalColumn(RevokedAt, TextType)]
    case WebSettings => [
        KeyColumn(Key, TextType), RequiredColumn(Value, TextType), RequiredColumn(UpdatedAt, TextType)]
  }

  /** The `CREATE TABLE` statements of the migrations, where the columns differ from the newest ones. */
  const PENDING_UPDATES_V2_COLUMNS: seq<Column> := [
    KeyColumn(Id, IntegerType), RequiredColumn(RunId, IntegerType), RequiredColumn(LineNo, IntegerType),
    RequiredColumn(Raw, TextType), RequiredColumn(Image, TextType),
    DefaultColumn(TargetDigest, TextType, EmptyText), DefaultColumn(DesiredTag, TextType, EmptyText),
    DefaultColumn(ServiceKey, TextType, EmptyText), DefaultColumn(StackName, TextType, EmptyText),
    DefaultColumn(ServiceName, TextType, EmptyText), RequiredColumn(Status, TextType),
    DefaultColumn(StatusReason, TextType, EmptyText), RequiredColumn(CreatedAt, TextType),
    RequiredColumn(UpdatedAt, TextType), DefaultColumn(MetadataJson, TextType, EmptyObject)]

  const RELEASE_NOTE_CACHE_V5_COLUMNS: seq<Column> := [
    KeyColumn(CacheKey, TextType), RequiredColumn(Provider, TextType),
    DefaultColumn(ImageRepo, TextType, EmptyText), DefaultColumn(UpstreamRepo, TextType, EmptyText),
    DefaultColumn(CurrentTag, TextType, EmptyText), DefaultColumn(TargetTag, TextType, EmptyText),
    RequiredColumn(Status, TextType), DefaultColumn(ReleaseTag, TextType, EmptyText),
    DefaultColumn(Title, TextType, EmptyText), DefaultColumn(PublishedAt, TextType, EmptyText),
    DefaultColumn(Breaking, IntegerType, Zero), DefaultColumn(BreakingReasonsJson, TextType, EmptyArray),
    DefaultColumn(LinksJson, TextType, EmptyArray), DefaultColumn(Error, TextType, EmptyText),
    RequiredColumn(CreatedAt, TextType), RequiredColumn(UpdatedAt, TextType),
    DefaultColumn(MetadataJson, TextType, EmptyObject)]

  const SECURITY_SCAN_CACHE_V9_COLUMNS: seq<Column> := [
    KeyColumn(CacheKey, TextType), RequiredColumn(RequestKey, TextType),
    DefaultColumn(SubjectId, TextType, EmptyText), DefaultColumn(CanonicalRegistry, TextType, EmptyText),
    DefaultColumn(CanonicalRepository, TextType, EmptyText), DefaultColumn(RequestedRef, TextType, EmptyText),
    DefaultColumn(ReportedDigest, TextType, EmptyText), DefaultColumn(IndexDigest, TextType, EmptyText),
    DefaultColumn(ManifestDigest, TextType, EmptyText), DefaultColumn(Platform, TextType, EmptyText),
    DefaultColumn(PlatformOs, TextType, EmptyText), DefaultColumn(PlatformArchitecture, TextType, EmptyText),
    DefaultColumn(PlatformVariant, TextType, EmptyText), DefaultColumn(PlatformSource, TextType, EmptyText),
    DefaultColumn(IdentityStatus, TextType, EmptyText), RequiredColumn(State, TextType),
    DefaultColumn(Verdict, TextType, EmptyText), DefaultColumn(Scanner, TextType, EmptyText),
    DefaultColumn(ScannerVersion, TextType, EmptyText), DefaultColumn(ScannerSchema, TextType, EmptyText),
    DefaultColumn(DbRevision, TextType, EmptyText), DefaultColumn(DbUpdatedAt, TextType, EmptyText),
    DefaultColumn(SeverityCountsJson, TextType, EmptyObject),
    DefaultColumn(FixableCountsJson, TextType, EmptyObject), DefaultColumn(UnfixedCount, IntegerType, Zero),
    DefaultColumn(WarningsJson, TextType, EmptyArray), DefaultColumn(ErrorCode, TextType, EmptyText),
    DefaultColumn(ErrorMessage, TextType, EmptyText), RequiredColumn(CreatedAt, TextType),
    RequiredColumn(UpdatedAt, TextType), DefaultColumn(MetadataJson, TextType, EmptyObject)]
}
