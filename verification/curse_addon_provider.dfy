/**
 The Curse provider's lookup-by-id: given the catalog's response for one addon
 (absent when the catalog returned nothing) and the client the addon is wanted
 for, select that client's release files, newest first, and normalize the entry
 into the application's `AddonSearchResult`. The HTTP request that produces the
 response is not part of this model; its outcome is the `response` parameter.
 */
module CurseAddonProvider {
  import opened Wrappers
  import opened Text
  import opened CurseModels
  import opened WowUpModels
  import opened FileOrdering

  /** The provider's name, stamped on every result it produces. */
  const ProviderName: string := "Curse"

  const ClassicFlavor: string := "wow_classic"
  const RetailFlavor: string := "wow_retail"

  /**
   Curse's flavour tag for a client: the two classic clients share "wow_classic";
   every other client, including one the switch does not name, falls back to "wow_retail".
   */
  function ClientTypeString(clientType: WowClientType): (r: string)
    ensures r == ClassicFlavor <==> clientType == Classic || clientType == ClassicPtr
    ensures r == RetailFlavor <==> !(clientType == Classic || clientType == ClassicPtr)
  {
    match clientType
    case Classic | ClassicPtr => ClassicFlavor
    case _ => RetailFlavor
  }

  /** A file is offered for a flavour when it is a main (not alternate) build of that flavour. */
  predicate IsEligible(f: CurseFile, flavor: string)
  {
    f.isAlternate == false && f.gameVersionFlavor == flavor
  }

  /** The eligible files of `files`, in input order; each one is kept as often as it occurs. */
  function FilterEligible(files: seq<CurseFile>, flavor: string): (r: seq<CurseFile>)
    ensures forall x :: multiset(r)[x] == if IsEligible(x, flavor) then multiset(files)[x] else 0
    ensures forall i :: 0 <= i < |r| ==> IsEligible(r[i], flavor)
  {
    if |files| == 0 then []
    else
      assert files == [files[0]] + files[1..];
      if IsEligible(files[0], flavor) then [files[0]] + FilterEligible(files[1..], flavor)
      else FilterEligible(files[1..], flavor)
  }

  /**
   The files offered for `clientType`, highest id first. The source writes this as a
   lodash pipeline of filter, ascending order-by-id and reverse; this definition is
   the behaviour that pipeline intends (see `LatestFilesAsWritten` for what the
   calls do with the plain, uncurried lodash the file imports).
   */
  function GetLatestFiles(result: CurseSearchResult, clientType: WowClientType): (r: seq<CurseFile>)
    ensures forall x :: multiset(r)[x] == (
              if IsEligible(x, ClientTypeString(clientType)) then multiset(result.latestFiles)[x] else 0)
    ensures forall x :: x in r <==> x in result.latestFiles && IsEligible(x, ClientTypeString(clientType))
    ensures SortedDescById(r)
  {
    var r := OrderByIdDescending(FilterEligible(result.latestFiles, ClientTypeString(clientType)));
    assert forall x :: x in r <==> x in multiset(r);
    r
  }

  /** Curse's maturity tag as a channel: alpha and beta carry over, everything else is stable. */
  function ChannelType(releaseType: CurseReleaseType): (r: AddonChannelType)
    ensures r == AddonChannelType.Alpha <==> releaseType == CurseReleaseType.Alpha
    ensures r == AddonChannelType.Beta <==> releaseType == CurseReleaseType.Beta
    ensures r == AddonChannelType.Stable <==> !(releaseType == CurseReleaseType.Alpha || releaseType == CurseReleaseType.Beta)
  {
    match releaseType
    case Alpha => AddonChannelType.Alpha
    case Beta => AddonChannelType.Beta
    case _ => AddonChannelType.Stable
  }

  /** The folder each module of `file` installs, in module order. */
  function FolderNames(file: CurseFile): (r: seq<string>)
    ensures |r| == |file.modules|
    ensures forall k :: 0 <= k < |r| ==> r[k] == file.modules[k].foldername
  {
    seq(|file.modules|, i requires 0 <= i < |file.modules| => file.modules[i].foldername)
  }

  /** `_.first` of the file's game versions: absent for an empty list. */
  function GameVersion(file: CurseFile): (r: Option<string>)
    ensures r.None? <==> |file.gameVersion| == 0
    ensures r.Some? ==> r.value == file.gameVersion[0]
  {
    if |file.gameVersion| == 0 then None else Some(file.gameVersion[0])
  }

  function AuthorNames(result: CurseSearchResult): (r: seq<string>)
    ensures |r| == |result.authors|
    ensures forall i :: 0 <= i < |r| ==> r[i] == result.authors[i].name
  {
    seq(|result.authors|, i requires 0 <= i < |result.authors| => result.authors[i].name)
  }

  /**
   The authors' names joined with ", ": empty without authors, otherwise starting with
   the first author's name and as long as the names plus one separator per gap.
   */
  function Author(result: CurseSearchResult): (r: string)
    ensures |result.authors| == 0 ==> r == ""
    ensures |result.authors| > 0 ==> result.authors[0].name <= r
    ensures |result.authors| > 0 ==> |r| == TotalLength(AuthorNames(result)) + 2 * (|result.authors| - 1)
  {
    Join(AuthorNames(result), ", ")
  }

  /** An attachment supplies the thumbnail when it is the default one and its URL is non-empty (truthy). */
  predicate QualifiesAsThumbnail(a: CurseAttachment)
  {
    a.isDefault && |a.thumbnailUrl| > 0
  }

  /** Position of the first qualifying attachment (`_.find`), absent when none qualifies. */
  function FirstThumbnailIndex(attachments: seq<CurseAttachment>): (r: Option<nat>)
    ensures r.None? <==> forall i :: 0 <= i < |attachments| ==> !QualifiesAsThumbnail(attachments[i])
    ensures r.Some? ==> r.value < |attachments| && QualifiesAsThumbnail(attachments[r.value])
    ensures r.Some? ==> forall j :: 0 <= j < r.value ==> !QualifiesAsThumbnail(attachments[j])
  {
    if |attachments| == 0 then None
    else if QualifiesAsThumbnail(attachments[0]) then Some(0)
    else
      match FirstThumbnailIndex(attachments[1..])
      case None => None
      case Some(k) => Some(k + 1)
  }

  /** The thumbnail URL of the first qualifying attachment, absent when none qualifies. */
  function ThumbnailUrl(result: CurseSearchResult): (r: Option<string>)
    ensures r.None? <==> forall i :: 0 <= i < |result.attachments| ==> !QualifiesAsThumbnail(result.attachments[i])
    ensures r.Some? ==> exists i :: (
              && 0 <= i < |result.attachments|
              && QualifiesAsThumbnail(result.attachments[i])
              && r.value == result.attachments[i].thumbnailUrl
              && forall j :: 0 <= j < i ==> !QualifiesAsThumbnail(result.attachments[j]))
    ensures r.Some? ==> |r.value| > 0
  {
    match FirstThumbnailIndex(result.attachments)
    case None => None
    case Some(i) => Some(result.attachments[i].thumbnailUrl)
  }

  /**
   What one normalized file says about its source file: its channel, the file name as
   version, the download URL, the module folders in module order and the first game
   version, absent when the list is empty.
   */
  ghost predicate NormalizesFile(n: AddonSearchResultFile, f: CurseFile)
  {
    && n.channelType == ChannelType(f.releaseType)
    && n.version == f.fileName
    && n.downloadUrl == f.downloadUrl
    && |n.folders| == |f.modules|
    && (forall k :: 0 <= k < |f.modules| ==> n.folders[k] == f.modules[k].foldername)
    && (|f.gameVersion| == 0 ==> n.gameVersion.None?)
    && (|f.gameVersion| > 0 ==> n.gameVersion == Some(f.gameVersion[0]))
  }

  /** One selected file, normalized. */
  function SearchResultFile(file: CurseFile): (r: AddonSearchResultFile)
    ensures NormalizesFile(r, file)
  {
    AddonSearchResultFile(
      ChannelType(file.releaseType),
      file.fileName,
      file.downloadUrl,
      FolderNames(file),
      GameVersion(file))
  }

  /**
   The catalog entry and its selected files as a normalized result: the entry's fields,
   the provider's name, and one normalized file per selected file, in order.
   */
  function AddonSearchResultOf(result: CurseSearchResult, latestFiles: seq<CurseFile>): (r: AddonSearchResult)
    ensures r.externalId == IntToString(result.id) && ParseInt(r.externalId) == result.id
    ensures r.name == result.name && r.externalUrl == result.websiteUrl
    ensures r.author == Author(result) && r.thumbnailUrl == ThumbnailUrl(result)
    ensures r.providerName == "Curse"
    ensures |r.files| == |latestFiles|
    ensures forall i :: 0 <= i < |latestFiles| ==> NormalizesFile(r.files[i], latestFiles[i])
  {
    AddonSearchResult(
      Author(result),
      IntToString(result.id),
      result.name,
      ThumbnailUrl(result),
      result.websiteUrl,
      ProviderName,
      SearchResultFiles(latestFiles))
  }

  /** `latestFiles.map(...)`: every selected file normalized, in the same order. */
  function SearchResultFiles(latestFiles: seq<CurseFile>): (r: seq<AddonSearchResultFile>)
    ensures |r| == |latestFiles|
    ensures forall i :: 0 <= i < |r| ==> r[i] == SearchResultFile(latestFiles[i])
  {
    if |latestFiles| == 0 then []
    else [SearchResultFile(latestFiles[0])] + SearchResultFiles(latestFiles[1..])
  }

  /**
   The transform `getById` applies to the catalog's response: no result for an absent
   response or when no file is offered for the client, otherwise the normalized entry.
   */
  function GetById(response: Option<CurseSearchResult>, clientType: WowClientType): (r: Option<AddonSearchResult>)
    ensures r.None? <==> (
              || response.None?
              || forall i :: 0 <= i < |response.value.latestFiles| ==>
                   !IsEligible(response.value.latestFiles[i], ClientTypeString(clientType)))
    ensures r.Some? ==>
      && r.value.externalId == IntToString(response.value.id)
      && r.value.providerName == "Curse"
      && r.value.name == response.value.name
      && r.value.externalUrl == response.value.websiteUrl
      && r.value.author == Join(AuthorNames(response.value), ", ")
      && r.value.thumbnailUrl == ThumbnailUrl(response.value)
      && |r.value.files| > 0
  {
    match response
    case None => None
    case Some(result) =>
      var latestFiles := GetLatestFiles(result, clientType);
      if |latestFiles| == 0 then
        assert forall i :: 0 <= i < |result.latestFiles| ==>
          !IsEligible(result.latestFiles[i], ClientTypeString(clientType));
        None
      else
        assert latestFiles[0] in latestFiles;
        Some(AddonSearchResultOf(result, latestFiles))
  }

  /**
   `getLatestFiles` as the source writes it. The file imports plain lodash, whose
   `filter` and `orderBy` are not curried: `_.filter(pred)` and `_.orderBy(key)` treat
   the function they are given as the collection and return empty arrays, and
   `_.flow` flattens those away, leaving `_.flow(_.reverse)`. The catalog's files
   thus come back merely reversed, with no filtering and no ordering by id.
   */
  function LatestFilesAsWritten(result: CurseSearchResult, clientType: WowClientType): (r: seq<CurseFile>)
    ensures multiset(r) == multiset(result.latestFiles)
    ensures forall i :: 0 <= i < |r| ==> r[i] == result.latestFiles[|r| - 1 - i]
  {
    ReverseMultiset(result.latestFiles);
    Reverse(result.latestFiles)
  }

  /** The `getById` transform over `LatestFilesAsWritten` instead of the intended selection. */
  function GetByIdAsWritten(response: Option<CurseSearchResult>, clientType: WowClientType): (r: Option<AddonSearchResult>)
    ensures r.None? <==> response.None? || |response.value.latestFiles| == 0
  {
    match response
    case None => None
    case Some(result) =>
      var latestFiles := LatestFilesAsWritten(result, clientType);
      if |latestFiles| == 0 then None else Some(AddonSearchResultOf(result, latestFiles))
  }
}
