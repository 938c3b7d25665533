/** A byte stream that arrives in chunks. */
module Streams {

  function Concat(chunks: seq<string>): string {
    if chunks == [] then "" else chunks[0] + Concat(chunks[1..])
  }
}
