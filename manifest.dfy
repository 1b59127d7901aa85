/**
 * The manifest document the server publishes and the client reads: the
 * patcher descriptor, the top-level string members (the content end point),
 * and the `files` object, whose members map a relative path to size, hash
 * and hash algorithm.  The JSON text itself is not modelled; a document is
 * the value that would be serialised.
 */
module Manifest {
  import opened Wrappers

  /** One member of `files`: `{ size, hash, alg }`; `hash` is null when the server could not read the file. */
  datatype Entry = Entry(size: nat, hash: Option<string>, alg: string)

  /** `patcher`: `{ url, hash, alg }`; `hash` and `alg` may hold null. */
  datatype PatcherInfo = PatcherInfo(url: string, hash: Option<string>, alg: Option<string>)

  /** The whole document; `files` keeps the members in document order. */
  datatype Document = Document(patcher: PatcherInfo, strings: map<string, string>, files: seq<(string, Entry)>)

  const Md5: string := "md5"

  /** The member name the server writes the content end point under. */
  const ServerEndPointKey: string := "content_end_point"

  /** The member name the client reads the content end point from. */
  const ClientEndPointKey: string := "content_endpoint"

  /**
   * `metaJson[key]` for a top-level string member.  Reading a name the
   * document does not have raises, as for every object of the JSON
   * library in this model; `None` stands for that raise.
   */
  function StringMember(doc: Document, key: string): Option<string>
  {
    if key in doc.strings then Some(doc.strings[key]) else None
  }
}
