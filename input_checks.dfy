/**
 The two checks run on the command-line arguments before anything is
 fetched: the region URL must belong to the results site, and the output
 file must be a .csv file. On failure the program stops; here the check
 returns `Fail`.
 */
module InputChecks {
  import opened Results
  import opened Text

  /** `check_input_url`: `base_url in input_url`. */
  function CheckInputUrl(inputUrl: string, baseUrl: string): (r: Outcome)
    ensures r.Fail? ==> r.error == InvalidRegionUrl
  {
    if !Contains(inputUrl, baseUrl) then Fail(InvalidRegionUrl) else Pass
  }

  /** A region URL is accepted exactly when the base URL appears inside it. */
  lemma UrlAcceptedIffInfix(inputUrl: string, baseUrl: string)
    ensures CheckInputUrl(inputUrl, baseUrl).Pass? <==> exists p, q :: inputUrl == p + baseUrl + q
  {
    ContainsIffInfix(inputUrl, baseUrl);
  }

  /** Every URL that starts with the base URL (a page of the results site) is accepted. */
  lemma SiteUrlAccepted(baseUrl: string, path: string)
    ensures CheckInputUrl(baseUrl + path, baseUrl) == Pass
  {
    ContainsInfix([], baseUrl, path);
    assert [] + baseUrl + path == baseUrl + path;
  }

  const CsvExtension := ".csv"

  /** `check_input_file_name`: `output_file.lower().endswith(".csv")`. */
  function CheckInputFileName(outputFile: string): (r: Outcome)
    ensures r.Fail? ==> r.error == InvalidFileName
  {
    if !EndsWith(Lower(outputFile), CsvExtension) then Fail(InvalidFileName) else Pass
  }

  /** The extension test ignores case: the name is accepted exactly when its
      last four characters are '.', then 'c' or 'C', 's' or 'S', 'v' or 'V'. */
  lemma FileNameAcceptedIff(outputFile: string)
    ensures CheckInputFileName(outputFile).Pass? <==>
      var n := |outputFile|;
      && n >= 4
      && outputFile[n - 4] == '.'
      && (outputFile[n - 3] == 'c' || outputFile[n - 3] == 'C')
      && (outputFile[n - 2] == 's' || outputFile[n - 2] == 'S')
      && (outputFile[n - 1] == 'v' || outputFile[n - 1] == 'V')
  {
  }
}
