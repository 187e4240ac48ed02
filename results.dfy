/**
 The ways a run of the scraper ends early. Every one of them makes the
 program print a message and exit with status 1, so the model returns
 them as values instead.
 */
module Results {

  datatype Error =
    | InvalidRegionUrl      // check_input_url: the URL is not under the results site
    | InvalidFileName       // check_input_file_name: the output name is not a .csv file
    | ServerNotResponding   // response_from_server: the status code is not 200
    | MissingHeading        // extract_town_data: fewer than three h3 elements (IndexError)
    | MissingCell           // extract_town_data: a sa2/sa3/sa6 cell is absent (AttributeError on None)
    | NoData                // write_to_csv: nothing to write

  datatype Option<+T> = None | Some(value: T)

  datatype Result<+T> = Ok(value: T) | Err(error: Error)

  /** The result of a check that only passes or stops the program. */
  datatype Outcome = Pass | Fail(error: Error)
}
