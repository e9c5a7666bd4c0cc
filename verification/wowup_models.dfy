/** The application's provider-independent types: the client being managed and the normalized search result. */
module WowUpModels {
  import opened Wrappers

  /** The game client an addon is looked up for; `Unrecognized` stands for any other enum value. */
  datatype WowClientType = Retail | Classic | RetailPtr | ClassicPtr | Beta | Unrecognized(code: int)

  datatype AddonChannelType = Stable | Beta | Alpha

  /** One normalized release file. */
  datatype AddonSearchResultFile = AddonSearchResultFile(
    channelType: AddonChannelType,
    version: string,
    downloadUrl: string,
    folders: seq<string>,
    gameVersion: Option<string>
  )

  /** The normalized result of a lookup; `thumbnailUrl` is absent when no attachment qualifies. */
  datatype AddonSearchResult = AddonSearchResult(
    author: string,
    externalId: string,
    name: string,
    thumbnailUrl: Option<string>,
    externalUrl: string,
    providerName: string,
    files: seq<AddonSearchResultFile>
  )
}
