/** The content-addressed evidence store (src/erc8004/store.rs). */
module Store {
  import opened Bytes
  import opened Wrappers
  import opened Text
  import opened Binding
  import opened Codec
  import opened Attest
  import opened Erc8004

  const MEM_SCHEME := "mem://"
  const FILE_SCHEME := "file://"
  const JSON_SUFFIX := ".json"

  /** The address of a binding's evidence in memory. */
  function MemUri(c: Crypto, b: DecisionBinding): string {
    MEM_SCHEME + ResponseHash(c, b)
  }

  datatype NotFound = NotFound(message: string)

  class MemStore {
    var byUri: map<string, string>

    constructor ()
      ensures byUri == map[]
    {
      byUri := map[];
    }

    /** Pins the bundle at its content address and returns the address. */
    method Put(c: Crypto, signed: SignedDecision) returns (uri: string)
      modifies this
      ensures uri == MemUri(c, signed.binding)
      ensures byUri == old(byUri)[uri := EvidenceBundle(signed)]
    {
      uri := MEM_SCHEME + HexEncode(Digest(c, signed.binding));
      byUri := byUri[uri := EvidenceBundle(signed)];
    }

    method Get(uri: string) returns (r: Result<string, NotFound>)
      ensures r == if uri in byUri then Ok(byUri[uri]) else Err(NotFound("no bundle at " + uri))
    {
      if uri in byUri {
        r := Ok(byUri[uri]);
      } else {
        r := Err(NotFound("no bundle at " + uri));
      }
    }

    method Len() returns (n: nat)
      ensures n == |byUri.Keys|
    {
      n := |byUri|;
    }
  }

  // ---------- Addresses as text ----------

  /** The text after the last `/`, or all of it. */
  function AfterLastSlash(s: string): string {
    if '/' !in s then s
    else AfterLastSlash(s[1..])
  }

  function StripSuffix(s: string, suffix: string): string {
    if |suffix| <= |s| && s[|s| - |suffix|..] == suffix then s[..|s| - |suffix|] else s
  }

  function StripPrefix(s: string, prefix: string): string {
    if prefix <= s then s[|prefix|..] else s
  }

  /** `ResponseUri::embedded_hash`. */
  function EmbeddedHash(uri: string): string {
    StripSuffix(AfterLastSlash(uri), JSON_SUFFIX)
  }

  /** `Path::join` of a relative name on a Unix path. */
  function JoinPath(root: string, name: string): string {
    if root == "" || root[|root| - 1] == '/' then root + name else root + "/" + name
  }

  function PathFor(root: string, hash: string): string {
    JoinPath(root, hash + JSON_SUFFIX)
  }

  function FileUri(path: string): string {
    FILE_SCHEME + path
  }

  lemma {:induction false} AfterLastSlashOf(directory: string, name: string)
    requires '/' !in name
    requires |directory| > 0 && directory[|directory| - 1] == '/'
    ensures AfterLastSlash(directory + name) == name
  {
    var s := directory + name;
    assert s[|directory| - 1] == '/';
    if |directory| == 1 {
      assert s[1..] == name;
    } else {
      assert s[1..] == directory[1..] + name;
      AfterLastSlashOf(directory[1..], name);
    }
  }

  lemma HexHasNoSeparator(bs: Bytes)
    ensures '/' !in HexEncode(bs) && '.' !in HexEncode(bs) && 'n' !in HexEncode(bs)
  {
    forall i | 0 <= i < |HexEncode(bs)| ensures HexEncode(bs)[i] !in {'/', '.', 'n'} {
      HexAlphabet(bs, i);
    }
  }

  /** The memory address carries the response hash. */
  lemma MemUriEmbedsHash(c: Crypto, b: DecisionBinding)
    ensures EmbeddedHash(MemUri(c, b)) == ResponseHash(c, b)
  {
    var h := ResponseHash(c, b);
    HexHasNoSeparator(Digest(c, b));
    AfterLastSlashOf(MEM_SCHEME, h);
    assert |h| == 64 && h[63] != 'n';
    assert JSON_SUFFIX[4] == 'n';
    assert h[|h| - 5..][4] == h[63];
  }

  lemma NameAfterPath(root: string, name: string)
    requires '/' !in name
    ensures AfterLastSlash(FileUri(JoinPath(root, name))) == name
  {
    var directory := FILE_SCHEME + (if root == "" || root[|root| - 1] == '/' then root else root + "/");
    assert FileUri(JoinPath(root, name)) == directory + name;
    AfterLastSlashOf(directory, name);
  }

  /** Under every root the file address carries the response hash, and stripping the scheme gives the path written. */
  lemma FileUriEmbedsHash(c: Crypto, root: string, b: DecisionBinding)
    ensures EmbeddedHash(FileUri(PathFor(root, ResponseHash(c, b)))) == ResponseHash(c, b)
    ensures forall path :: StripPrefix(FileUri(path), FILE_SCHEME) == path
  {
    var h := ResponseHash(c, b);
    HexHasNoSeparator(Digest(c, b));
    assert '/' !in JSON_SUFFIX;
    NameAfterPath(root, h + JSON_SUFFIX);
    assert (h + JSON_SUFFIX)[|h|..] == JSON_SUFFIX && (h + JSON_SUFFIX)[..|h|] == h;
  }

  /** The addresses spelled out: below the root, with a slash in between only where one is missing. */
  lemma Addresses(c: Crypto, root: string, b: DecisionBinding)
    ensures MemUri(c, b) == "mem://" + HexEncode(Digest(c, b))
    ensures var path := PathFor(root, ResponseHash(c, b));
      && FileUri(path) == "file://" + path
      && root <= path
      && path[|root|..] == (if root == "" || root[|root| - 1] == '/' then "" else "/")
                           + HexEncode(Digest(c, b)) + ".json"
  {
  }

  /** For any address: its last name after the slashes, without a `.json` ending if it has one. */
  lemma {:induction false} EmbeddedHashOf(uri: string) returns (directory: string, name: string)
    ensures uri == directory + name && '/' !in name
    ensures directory == "" || directory[|directory| - 1] == '/'
    ensures if |name| >= 5 && name[|name| - 5..] == ".json" then name == EmbeddedHash(uri) + ".json"
            else name == EmbeddedHash(uri)
  {
    directory, name := LastName(uri);
  }

  lemma {:induction false} LastName(s: string) returns (directory: string, name: string)
    ensures s == directory + name && '/' !in name
    ensures directory == "" || directory[|directory| - 1] == '/'
    ensures name == AfterLastSlash(s)
  {
    directory, name := "", s;
    if '/' in s {
      directory, name := LastName(s[1..]);
      var first := directory;
      directory := [s[0]] + first;
      assert s == [s[0]] + s[1..];
    }
  }
}
