/** The AgentRuntime custom resource's spec (apis/v1alpha1/agent_runtime.go and types.go),
    one datatype per generated struct. A pointer field is an `Option`. */
module Api {
  import opened Basics

  datatype S3Location = S3Location(bucket: Option<string>, prefix: Option<string>, versionID: Option<string>)

  datatype Code = Code(s3: Option<S3Location>)

  datatype CodeConfiguration = CodeConfiguration(
    code: Option<Code>,
    entryPoint: StringList,
    runtime: Option<string>)

  datatype ContainerConfiguration = ContainerConfiguration(containerURI: Option<string>)

  datatype AgentRuntimeArtifact = AgentRuntimeArtifact(
    codeConfiguration: Option<CodeConfiguration>,
    containerConfiguration: Option<ContainerConfiguration>)

  datatype ClaimMatchValue = ClaimMatchValue(
    matchValueString: Option<string>,
    matchValueStringList: StringList)

  datatype AuthorizingClaimMatchValue = AuthorizingClaimMatchValue(
    claimMatchOperator: Option<string>,
    claimMatchValue: Option<ClaimMatchValue>)

  datatype CustomClaim = CustomClaim(
    authorizingClaimMatchValue: Option<AuthorizingClaimMatchValue>,
    inboundTokenClaimName: Option<string>,
    inboundTokenClaimValueType: Option<string>)

  datatype CustomJWTAuthorizer = CustomJWTAuthorizer(
    allowedAudience: StringList,
    allowedClients: StringList,
    allowedScopes: StringList,
    customClaims: Option<seq<Option<CustomClaim>>>,
    discoveryURL: Option<string>)

  datatype AuthorizerConfiguration = AuthorizerConfiguration(customJWTAuthorizer: Option<CustomJWTAuthorizer>)

  datatype SessionStorage = SessionStorage(mountPath: Option<string>)

  datatype FilesystemConfiguration = FilesystemConfiguration(sessionStorage: Option<SessionStorage>)

  datatype LifecycleConfiguration = LifecycleConfiguration(
    idleRuntimeSessionTimeout: Option<int64>,
    maxLifetime: Option<int64>)

  /** AWSResourceReference: `From` in a reference wrapper. */
  datatype ResourceReference = ResourceReference(name: Option<string>, namespace: Option<string>)

  datatype ReferenceWrapper = ReferenceWrapper(from: Option<ResourceReference>)

  type ReferenceList = Option<seq<Option<ReferenceWrapper>>>

  datatype VPCConfig = VPCConfig(
    securityGroupRefs: ReferenceList,
    securityGroups: StringList,
    subnetRefs: ReferenceList,
    subnets: StringList)

  datatype NetworkConfiguration = NetworkConfiguration(
    networkMode: Option<string>,
    networkModeConfig: Option<VPCConfig>)

  datatype ProtocolConfiguration = ProtocolConfiguration(serverProtocol: Option<string>)

  datatype RequestHeaderConfiguration = RequestHeaderConfiguration(requestHeaderAllowlist: StringList)

  datatype AgentRuntimeSpec = AgentRuntimeSpec(
    agentRuntimeArtifact: Option<AgentRuntimeArtifact>,
    agentRuntimeName: Option<string>,
    authorizerConfiguration: Option<AuthorizerConfiguration>,
    description: Option<string>,
    environmentVariables: StringMap,
    filesystemConfigurations: Option<seq<Option<FilesystemConfiguration>>>,
    lifecycleConfiguration: Option<LifecycleConfiguration>,
    networkConfiguration: Option<NetworkConfiguration>,
    platformVersion: Option<string>,
    protocolConfiguration: Option<ProtocolConfiguration>,
    requestHeaderConfiguration: Option<RequestHeaderConfiguration>,
    roleARN: Option<string>,
    tags: StringMap)
}
