/**
 * The parts of the go-jira library that the core touches: the Issue record,
 * of which only the key is interpreted, and the remote lookup GetIssue,
 * taken as an oracle from key to issue (None for any retrieval failure).
 */
module GoJira {
  import opened Wrappers

  /** A fetched issue: its key and its descriptive fields (summary, description, ...). */
  datatype Issue = Issue(key: string, fields: map<string, string>)

  /** The answer the remote service gives for each requested key. */
  type Client = string -> Option<Issue>
}
