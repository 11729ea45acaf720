/**
 * `queryUpdate` of CodePushAcquisitionManager.swift: one update check against the server.
 *
 * Building the URL from its components (`URLComponents.url`) and the HTTP request together
 * with the JSON decoding of its body are collaborators; they are parameters here.
 */
module Acquisition {
  import opened Optionals
  import opened Errors
  import opened Results
  import opened DataContracts
  import opened RemotePackages
  import opened UpdateRequests
  import opened Utils

  /** The update-check endpoint and the protocol. */
  const UpdateCheckEndpoint: string := "/updateCheck"
  const Scheme: string := "https"

  /** `URLComponents` as the query fills it. */
  datatype UrlComponents = UrlComponents(scheme: Option<string>, host: Option<string>, path: string,
                                         queryItems: seq<QueryItem>)

  /** The components of the update-check URL for a request. */
  function UpdateCheckComponents(config: Configuration, request: UpdateRequest): (c: UrlComponents)
    ensures c.scheme == Some(Scheme) && c.host == config.serverUrl && c.path == UpdateCheckEndpoint
    ensures c.queryItems == GetQueryItems(request)
  {
    UrlComponents(Some(Scheme), config.serverUrl, UpdateCheckEndpoint, GetQueryItems(request))
  }

  /** The decision needs `updateAppVersion`, then `appVersion` or `isAvailable`: the source unwraps them. */
  predicate Decidable(info: UpdateResponseInfo)
  {
    info.updateAppVersion.Some? &&
    (info.updateAppVersion.value ==> info.appVersion.Some?) &&
    (!info.updateAppVersion.value ==> info.isAvailable.Some?)
  }

  /**
   * What the server's answer means: a binary-version redirect when `updateAppVersion` is set,
   * no update when nothing is available, otherwise the described package under the key used.
   */
  function InterpretResponse(deploymentKey: string, info: UpdateResponseInfo): (r: Option<RemotePackage>)
    requires Decidable(info)
    ensures info.updateAppVersion == Some(true) ==>
              r == Some(CreateDefaultRemotePackage(info.appVersion.value, true))
    ensures r.None? <==> info.updateAppVersion == Some(false) && info.isAvailable == Some(false)
    ensures info.updateAppVersion == Some(false) && r.Some? ==>
              r == Some(CreateRemotePackage(deploymentKey, info))
  {
    if info.updateAppVersion.value then
      Some(CreateDefaultRemotePackage(info.appVersion.value, info.updateAppVersion.value))
    else if !info.isAvailable.value then
      None
    else
      Some(CreateRemotePackage(deploymentKey, info))
  }

  /** The request sent for a package: the configured key and device id. */
  function RequestFor(config: Configuration, package: LocalPackage): (r: UpdateRequest)
    requires config.deploymentKey.Some? && config.clientUniqueId.Some?
    ensures r.deploymentKey == config.deploymentKey && r.clientUniqueId == config.clientUniqueId
    ensures r.appVersion == package.base.appVersion && r.packageHash == package.base.packageHash
    ensures r.releaseLabel == package.base.releaseLabel && !r.isCompanion
  {
    CreateUpdateRequest(config.deploymentKey.value, package, config.clientUniqueId.value)
  }

  /** The URL the check is sent to, or the error raised before anything is sent. */
  function PrepareQuery(config: Configuration, package: LocalPackage,
                        formUrl: UrlComponents -> Option<string>): (r: Result<string>)
    requires package.base.appVersion.Some? ==> config.deploymentKey.Some? && config.clientUniqueId.Some?
    ensures package.base.appVersion.None? ==> r == Failure(InvalidParam)
    ensures package.base.appVersion.Some? ==>
              var url := formUrl(UpdateCheckComponents(config, RequestFor(config, package)));
              (r.Failure? <==> url.None?) && (r.Failure? ==> r.error == FailedToConstructUrl) &&
              (r.Success? ==> r.value == url.value)
  {
    if package.base.appVersion.None? then Failure(InvalidParam)
    else
      match formUrl(UpdateCheckComponents(config, RequestFor(config, package)))
      case None => Failure(FailedToConstructUrl)
      case Some(url) => Success(url)
  }

  /** The source unwraps the fields the decision reads: a response that reaches the decision has them. */
  predicate QueryAnswerDecidable(config: Configuration, package: LocalPackage,
                            formUrl: UrlComponents -> Option<string>,
                            fetch: string -> Result<UpdateResponse>)
    requires package.base.appVersion.Some? ==> config.deploymentKey.Some? && config.clientUniqueId.Some?
  {
    var url := PrepareQuery(config, package, formUrl);
    url.Success? && fetch(url.value).Success? ==> Decidable(fetch(url.value).value.updateInfo)
  }

  /**
   * `queryUpdate`: the remote package offered for the local one, `None` when there is none.
   * `fetch` performs the request and decodes its body; its failure is passed on unchanged.
   */
  function QueryUpdate(config: Configuration, package: LocalPackage,
                       formUrl: UrlComponents -> Option<string>,
                       fetch: string -> Result<UpdateResponse>): (r: Result<Option<RemotePackage>>)
    requires package.base.appVersion.Some? ==> config.deploymentKey.Some? && config.clientUniqueId.Some?
    requires QueryAnswerDecidable(config, package, formUrl, fetch)
    ensures PrepareQuery(config, package, formUrl).Failure? ==>
              r == Failure(PrepareQuery(config, package, formUrl).error)
    ensures PrepareQuery(config, package, formUrl).Success? ==>
              var answer := fetch(PrepareQuery(config, package, formUrl).value);
              (answer.Failure? ==> r == Failure(answer.error)) &&
              (answer.Success? ==> r == Success(InterpretResponse(config.deploymentKey.value, answer.value.updateInfo)))
  {
    match PrepareQuery(config, package, formUrl)
    case Failure(e) => Failure(e)
    case Success(url) =>
      match fetch(url)
      case Failure(e) => Failure(e)
      case Success(response) => Success(InterpretResponse(config.deploymentKey.value, response.updateInfo))
  }

  /**
   * "No update" is reported only for an answer that says so: a failed request, an unbuildable
   * URL or a package without app version is an error, never an empty success.
   */
  lemma NoUpdateOnlyWhenServerSaysSo(config: Configuration, package: LocalPackage,
                                      formUrl: UrlComponents -> Option<string>,
                                      fetch: string -> Result<UpdateResponse>)
    requires package.base.appVersion.Some? ==> config.deploymentKey.Some? && config.clientUniqueId.Some?
    requires QueryAnswerDecidable(config, package, formUrl, fetch)
    ensures QueryUpdate(config, package, formUrl, fetch) == Success(None) <==>
              package.base.appVersion.Some? &&
              var url := formUrl(UpdateCheckComponents(config, RequestFor(config, package)));
              url.Some? && fetch(url.value).Success? &&
              fetch(url.value).value.updateInfo.updateAppVersion == Some(false) &&
              fetch(url.value).value.updateInfo.isAvailable == Some(false)
  {
  }

  /**
   * An offered package that is not a binary redirect is the server's description under the
   * configured deployment key, not marked as failed.
   */
  lemma OfferedPackage(config: Configuration, package: LocalPackage,
                       formUrl: UrlComponents -> Option<string>,
                       fetch: string -> Result<UpdateResponse>)
    requires package.base.appVersion.Some? ==> config.deploymentKey.Some? && config.clientUniqueId.Some?
    requires QueryAnswerDecidable(config, package, formUrl, fetch)
    requires QueryUpdate(config, package, formUrl, fetch).Success?
    requires QueryUpdate(config, package, formUrl, fetch).value.Some?
    ensures var offered := QueryUpdate(config, package, formUrl, fetch).value.value;
            offered.updateAppVersion == Some(false) ==>
              offered.base.deploymentKey == config.deploymentKey && offered.base.failedInstall == Some(false)
    ensures var offered := QueryUpdate(config, package, formUrl, fetch).value.value;
            offered.updateAppVersion == Some(true) ==>
              offered.base.packageHash == None && offered.downloadURL == None && offered.base.appVersion.Some?
  {
  }

  /**
   * The URL is built from the package's app version and hash and the configured key and
   * device id, over https, to the update-check endpoint of the configured server; the
   * releaseLabel is not sent.
   */
  lemma QueryCarriesPackage(config: Configuration, package: LocalPackage)
    requires config.deploymentKey.Some? && config.clientUniqueId.Some?
    ensures var c := UpdateCheckComponents(config, RequestFor(config, package));
            c.scheme == Some("https") && c.host == config.serverUrl && c.path == "/updateCheck" &&
            QueryValue(c.queryItems, "appVersion") == Some(package.base.appVersion) &&
            QueryValue(c.queryItems, "packageHash") == Some(package.base.packageHash) &&
            QueryValue(c.queryItems, "deploymentKey") == Some(config.deploymentKey) &&
            QueryValue(c.queryItems, "clientUniqueId") == Some(config.clientUniqueId) &&
            QueryValue(c.queryItems, "label") == None
  {
    QueryItemsOmitLabel(RequestFor(config, package));
  }
}
