/** Failure-carrying values shared by the model: the `liberror::Result` values the
    scaffolder returns, and optional catalog fields. */
module Wrappers {

  datatype Option<+T> = None | Some(value: T)

  /** `liberror::Result<T>`: a value or the error that stopped the computation. */
  datatype Result<+T, +E> = Success(value: T) | Failure(error: E)

  /** `liberror::Result<void>`: success, or the error that stopped the computation. */
  datatype Outcome<+E> = Pass | Fail(error: E)
}

/** The errors the scaffolder reports, one constructor per message it formats. */
module Errors {

  datatype Error =
    | UnknownLanguage(language: string)                      // "Language {} is not available."
    | UnsupportedStandard(standard: int, language: string)   // "Standard {} is not available for {}."
    | UnknownTemplate(template: string)                      // "Template \"{}\" could not be found."
    | UnknownKind(kind: string, template: string)            // "Kind \"{}\" is not avaiable for template \"{}\""
    | ProjectExists(project: string)                         // "Project \"{}\" already exists."
    | MissingFeature(feature: string)                        // "Could not find feature \"{}\"."
    | PreprocessorFailed(path: seq<string>, message: string) // libpreprocessor's error; the file path is added by this model
    | ProjectDirectoryMissing(project: string)               // directory iterator opened on a missing directory
    | RenameSourceMissing(path: seq<string>)                 // fs::rename of an entry that was already renamed
}
