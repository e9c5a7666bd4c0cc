/** Properties of the Curse lookup that relate several definitions or concrete catalog entries. */
module ProviderProperties {
  import opened Wrappers
  import opened Text
  import opened CurseModels
  import opened WowUpModels
  import opened FileOrdering
  import opened CurseAddonProvider

  /**
   The normalized files are the selected files (`GetLatestFiles`: newest first, none
   of them alternate, all of the client's flavour), one for one and in the same
   order, each normalized from its own file.
   */
  lemma GetByIdFiles(result: CurseSearchResult, clientType: WowClientType)
    ensures var r := GetById(Some(result), clientType);
            var latest := GetLatestFiles(result, clientType);
            r.Some? ==>
              && |r.value.files| == |latest|
              && forall i :: 0 <= i < |latest| ==> NormalizesFile(r.value.files[i], latest[i])
  {
    var latest := GetLatestFiles(result, clientType);
    var r := GetById(Some(result), clientType);
    if r.Some? {
      assert r.value == AddonSearchResultOf(result, latest);
    }
  }

  /** An entry with a file for the client yields a result; its files are exactly as many as the eligible files. */
  lemma GetByIdFileCount(result: CurseSearchResult, clientType: WowClientType)
    ensures var r := GetById(Some(result), clientType);
            r.Some? ==> |r.value.files| == |FilterEligible(result.latestFiles, ClientTypeString(clientType))|
  {
  }

  /**
   Selected files that share an id appear in the reverse of their order in the
   catalog's list; with the contract of `GetLatestFiles` this fixes the output completely.
   */
  lemma GetLatestFilesTies(result: CurseSearchResult, clientType: WowClientType, k: int)
    ensures WithId(GetLatestFiles(result, clientType), k) ==
            Reverse(WithId(FilterEligible(result.latestFiles, ClientTypeString(clientType)), k))
  {
    OrderByIdDescendingTies(FilterEligible(result.latestFiles, ClientTypeString(clientType)), k);
  }

  /** Filtering a concatenation filters each part: the filter keeps input order. */
  lemma {:induction false} FilterEligibleAppend(s: seq<CurseFile>, t: seq<CurseFile>, flavor: string)
    ensures FilterEligible(s + t, flavor) == FilterEligible(s, flavor) + FilterEligible(t, flavor)
  {
    if |s| == 0 {
      assert s + t == t;
    } else {
      assert (s + t)[1..] == s[1..] + t;
      FilterEligibleAppend(s[1..], t, flavor);
    }
  }

  /** The filter keeps the catalog's order among the files that share an id. */
  lemma {:induction false} FilterWithId(s: seq<CurseFile>, flavor: string, k: int)
    ensures WithId(FilterEligible(s, flavor), k) == FilterEligible(WithId(s, k), flavor)
  {
    if |s| > 0 {
      FilterWithId(s[1..], flavor, k);
    }
  }

  /** The author string for no, one and two authors. */
  lemma AuthorExamples(result: CurseSearchResult)
    ensures |result.authors| == 0 ==> Author(result) == ""
    ensures |result.authors| == 1 ==> Author(result) == result.authors[0].name
    ensures |result.authors| == 2 ==> Author(result) == result.authors[0].name + ", " + result.authors[1].name
  {
    var names := AuthorNames(result);
    if |result.authors| == 2 {
      assert names[1..] == [result.authors[1].name];
      assert Join(names, ", ") == names[0] + ", " + Join(names[1..], ", ");
    }
  }

  const RetailBuild: CurseFile :=
    CurseFile(5, "addon-5.zip", "https://example.org/5", Release, false, "wow_retail", [], [])
  const ClassicBeta: CurseFile :=
    CurseFile(9, "addon-9.zip", "https://example.org/9", CurseReleaseType.Beta, false, "wow_classic", [], ["1.13.5"])
  const TwoFlavorEntry: CurseSearchResult :=
    CurseSearchResult(100, "Addon", [], "https://example.org", [], [RetailBuild, ClassicBeta])

  /** The external id of catalog entry 100. */
  lemma HundredToString()
    ensures IntToString(100) == "100"
  {
  }

  /** The main build of the retail flavour is kept and the classic beta is not. */
  lemma RetailEntryScenario()
    ensures GetById(Some(TwoFlavorEntry), Retail) == Some(AddonSearchResult(
              "", "100", "Addon", None, "https://example.org", "Curse",
              [AddonSearchResultFile(Stable, "addon-5.zip", "https://example.org/5", [], None)]))
  {
    assert FilterEligible(TwoFlavorEntry.latestFiles, "wow_retail") == [RetailBuild];
    assert SortById([RetailBuild]) == [RetailBuild];
    assert Reverse([RetailBuild]) == [RetailBuild];
    assert GetLatestFiles(TwoFlavorEntry, Retail) == [RetailBuild];
    HundredToString();
    assert ThumbnailUrl(TwoFlavorEntry) == None;
    assert Author(TwoFlavorEntry) == "";
    assert |FolderNames(RetailBuild)| == 0;
    var file := AddonSearchResultFile(Stable, "addon-5.zip", "https://example.org/5", [], None);
    assert SearchResultFile(RetailBuild) == file;
    var r := AddonSearchResultOf(TwoFlavorEntry, [RetailBuild]);
    assert r.files == [file] + SearchResultFiles([]);
    assert SearchResultFiles([]) == [];
    assert r.files == [file];
    assert r.author == "";
    assert r.externalId == "100";
    assert r.name == "Addon";
    assert r.thumbnailUrl == None;
    assert r.externalUrl == "https://example.org";
    assert r.providerName == "Curse";
    assert r == AddonSearchResult("", "100", "Addon", None, "https://example.org", "Curse", [file]);
  }

  /**
   An entry whose only file is an alternate build: the intended selection offers
   nothing, so the lookup yields no result, while the source as written returns that
   alternate build.
   */
  lemma AlternateOnlyScenario()
    ensures var alt := CurseFile(7, "addon-7-nolib.zip", "https://example.org/7", Release, true, "wow_retail", [], []);
            var entry := CurseSearchResult(1, "Addon", [], "https://example.org", [], [alt]);
            && GetLatestFiles(entry, Retail) == []
            && GetById(Some(entry), Retail) == None
            && LatestFilesAsWritten(entry, Retail) == [alt]
            && GetByIdAsWritten(Some(entry), Retail).Some?
            && GetByIdAsWritten(Some(entry), Retail).value.files[0].version == "addon-7-nolib.zip"
  {
  }
}
