/** The exceptions the pipeline raises, one constructor per raise site or
    failing collaborator. */
module Errors {

  datatype Error =
    | NoUsableContent    // ValueError "No usable content extracted from site" (qa.py)
    | NoIndexLoaded      // ValueError "No index loaded. Run ingest first." (qa.py)
    | IndexPathRequired  // ValueError "index path required to save" (embeddings.py)
    | FileNotFound       // reading an index artifact file that does not exist
    | IndexOutOfRange    // IndexError from `self.texts[idx]`
    | ServiceError       // the embedding or generation service failed
}
