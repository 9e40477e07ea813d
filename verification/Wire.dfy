/** The service's own shapes, as the SDK declares them: unions are interfaces (nil, one of
    the members, or a member this client does not know), enums are strings and timeouts are
    32 bits wide. */
module Wire {
  import opened Basics

  datatype S3Location = S3Location(bucket: Option<string>, prefix: Option<string>, versionId: Option<string>)

  datatype Code = NilCode | CodeMemberS3(s3: S3Location) | UnknownCode

  datatype CodeConfiguration = CodeConfiguration(code: Code, entryPoint: Option<seq<string>>, runtime: string)

  datatype Artifact =
    | NilArtifact
    | MemberCodeConfiguration(code: CodeConfiguration)
    | MemberContainerConfiguration(containerUri: Option<string>)
    | UnknownArtifact

  datatype ClaimMatchValue =
    | NilMatchValue
    | MemberMatchValueString(s: string)
    | MemberMatchValueStringList(list: seq<string>)
    | UnknownMatchValue

  datatype AuthorizingClaimMatchValue = AuthorizingClaimMatchValue(
    claimMatchOperator: string,
    claimMatchValue: ClaimMatchValue)

  datatype CustomClaim = CustomClaim(
    authorizingClaimMatchValue: Option<AuthorizingClaimMatchValue>,
    inboundTokenClaimName: Option<string>,
    inboundTokenClaimValueType: string)

  datatype CustomJWTAuthorizer = CustomJWTAuthorizer(
    allowedAudience: Option<seq<string>>,
    allowedClients: Option<seq<string>>,
    allowedScopes: Option<seq<string>>,
    customClaims: Option<seq<CustomClaim>>,
    discoveryUrl: Option<string>)

  datatype Authorizer = NilAuthorizer | MemberCustomJWTAuthorizer(jwt: CustomJWTAuthorizer) | UnknownAuthorizer

  datatype Filesystem = NilFilesystem | MemberSessionStorage(mountPath: Option<string>) | UnknownFilesystem

  datatype Lifecycle = Lifecycle(idleRuntimeSessionTimeout: Option<int32>, maxLifetime: Option<int32>)

  datatype VpcConfig = VpcConfig(securityGroups: Option<seq<string>>, subnets: Option<seq<string>>)

  datatype Network = Network(networkMode: string, networkModeConfig: Option<VpcConfig>)

  datatype Protocol = Protocol(serverProtocol: string)

  datatype RequestHeader = NilRequestHeader | MemberRequestHeaderAllowlist(list: seq<string>) | UnknownRequestHeader

  datatype CreateInput = CreateInput(
    artifact: Artifact,
    name: Option<string>,
    authorizer: Authorizer,
    description: Option<string>,
    environmentVariables: Option<map<string, string>>,
    filesystems: Option<seq<Filesystem>>,
    lifecycle: Option<Lifecycle>,
    network: Option<Network>,
    platformVersion: Option<string>,
    protocol: Option<Protocol>,
    requestHeader: RequestHeader,
    roleArn: Option<string>,
    tags: Option<map<string, string>>)

  datatype UpdateInput = UpdateInput(
    artifact: Artifact,
    id: Option<string>,
    authorizer: Authorizer,
    description: Option<string>,
    environmentVariables: Option<map<string, string>>,
    filesystems: Option<seq<Filesystem>>,
    lifecycle: Option<Lifecycle>,
    network: Option<Network>,
    platformVersion: Option<string>,
    protocol: Option<Protocol>,
    requestHeader: RequestHeader,
    roleArn: Option<string>)

  /** The part of a create, update or read answer that describes the runtime's state.
      `status` is "" when the service leaves it out; `createdAt` is a timestamp. */
  datatype StateOutput = StateOutput(
    arn: Option<string>,
    id: Option<string>,
    version: Option<string>,
    createdAt: Option<int>,
    status: string,
    workloadIdentity: Option<Option<string>>)

  datatype GetOutput = GetOutput(
    state: StateOutput,
    artifact: Artifact,
    name: Option<string>,
    authorizer: Authorizer,
    description: Option<string>,
    environmentVariables: Option<map<string, string>>,
    filesystems: Option<seq<Filesystem>>,
    lifecycle: Option<Lifecycle>,
    network: Option<Network>,
    platformVersion: Option<string>,
    protocol: Option<Protocol>,
    requestHeader: RequestHeader,
    roleArn: Option<string>)
}
