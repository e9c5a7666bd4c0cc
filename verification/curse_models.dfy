/**
 The shapes of the Curse catalog's JSON response for one addon, as the provider
 reads them. Only the fields the provider touches are kept.
 */
module CurseModels {

  /** Curse's release maturity tag; a numeric tag outside the three known ones is `Unrecognized`. */
  datatype CurseReleaseType = Release | Beta | Alpha | Unrecognized(code: int)

  /** One module (installed folder) of a release file. */
  datatype CurseModule = CurseModule(foldername: string)

  /** One downloadable build of an addon. */
  datatype CurseFile = CurseFile(
    id: int,
    fileName: string,
    downloadUrl: string,
    releaseType: CurseReleaseType,
    isAlternate: bool,
    gameVersionFlavor: string,
    modules: seq<CurseModule>,
    gameVersion: seq<string>
  )

  /** An image attached to the addon's catalog page. */
  datatype CurseAttachment = CurseAttachment(isDefault: bool, thumbnailUrl: string)

  datatype CurseAuthor = CurseAuthor(name: string)

  /** The catalog entry returned for `GET /addon/<id>`. */
  datatype CurseSearchResult = CurseSearchResult(
    id: int,
    name: string,
    authors: seq<CurseAuthor>,
    websiteUrl: string,
    attachments: seq<CurseAttachment>,
    latestFiles: seq<CurseFile>
  )
}
