/** The exceptions the checking engine can raise while inspecting a
    submission. None of them is caught below `Strategy.CheckSubmission`. */
module Faults {

  datatype Fault =
      /** `FileStream` on a file that is not there. */
    | MissingFile(path: string)
      /** A chosen answer letter beyond the model answers of its question:
          the `IndexError` of indexing the model data with it. */
    | AnswerBeyondModel(question: nat, index: int)
}
