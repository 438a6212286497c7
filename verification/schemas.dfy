/** The shared records of `alchemy/schemas.py` that the modelled core produces or consumes. */
module Schemas {
  import opened Options

  /** Lifecycle states of a job; `Name` is the string value each state carries. */
  datatype JobStatus = Pending | Running | Done | Failed {
    function Name(): string {
      match this
      case Pending => "pending"
      case Running => "running"
      case Done => "done"
      case Failed => "failed"
    }

    predicate IsTerminal() {
      this == Done || this == Failed
    }
  }

  /** One retrieval chunk; `page` is never set by the chunker. */
  datatype DocumentChunk = DocumentChunk(
    index: int,
    text: string,
    page: Option<int>,
    section: Option<string>,
    tokens: Option<int>)

  /** Values of the `metadata` dictionary that the modelled parsers fill in. */
  datatype MetaValue = IntValue(i: int) | TextValue(s: string) | FlagValue(b: bool)

  /** The unified parser output (the `tables`, `images` and `raw` fields are not modelled). */
  datatype ParseResponse = ParseResponse(
    source: string,
    contentType: string,
    markdown: Option<string>,
    chunks: seq<DocumentChunk>,
    metadata: map<string, MetaValue>)

  /** What a parser call does: return a response, or raise an exception carrying a message. */
  datatype Outcome = Succeeded(response: ParseResponse) | Raised(message: string)
}
