/** The chunk record every index component passes on. */
module Chunks {
  datatype Chunk = Chunk(
    path: string, language: string, startLine: nat, endLine: nat, code: string, contentHash: string)
}
