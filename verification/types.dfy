/** The application's record types: `Question` and `Tab`, plus the partial tab a save request carries. */
module Types {
  import opened Wrappers

  /** An instant, in milliseconds; the ISO `updatedAt` strings are parsed to this. */
  type Timestamp = int

  datatype Range = Range(min: int, max: int)

  /**
    A question of a tab. `type` (here `questionType`, `type` being a Dafny keyword) is free text: only "multichoice" and "number"
    are treated specially. Optional fields are `None` when absent.
  */
  datatype Question = Question(
    name: string,
    questionType: string,
    description: Option<string>,
    choices: Option<seq<string>>,
    isSingleChoice: Option<bool>,
    range: Option<Range>,
    useRange: Option<bool>)

  /** A saved workspace. */
  datatype Tab = Tab(
    id: string,
    title: string,
    userId: string,
    description: string,
    textInput: string,
    urlInput: string,
    fileInput: string,
    questions: seq<Question>,
    updatedAt: Option<Timestamp>,
    createdAt: Option<Timestamp>)

  /** `Partial<Tab>` as it arrives in a save request: any field may be missing. */
  datatype TabPatch = TabPatch(
    id: Option<string>,
    title: Option<string>,
    userId: Option<string>,
    description: Option<string>,
    textInput: Option<string>,
    urlInput: Option<string>,
    fileInput: Option<string>,
    questions: Option<seq<Question>>)

  const MultiChoice: string := "multichoice"
  const NumberType: string := "number"
}
