/** Constants, status codes and the option type shared by every layer. */
module Types {
  const U32_MAX: nat := 0xFFFF_FFFF
  const U64_MAX: nat := 0xFFFF_FFFF_FFFF_FFFF
  const TWO64: nat := 0x1_0000_0000_0000_0000
  const SECTOR: nat := 512

  /** Longest name shown below /dev/ssu. */
  const MAX_DISK_NAME: nat := 27

  /** Most hosts a request may name. */
  const MAX_HOSTS: nat := 32

  datatype Option<+T> = None | Some(value: T)

  /** The status codes of the public API. */
  datatype Status =
    | OK | INVALID | NO_RESOURCE | NOT_FOUND | BUSY | IO | KERNEL
    | NS_EXISTS | BUFFER_TOO_SMALL | UNSUPPORTED | INTERNAL

  predicate IsDiskNameChar(c: char) {
    'a' <= c <= 'z' || 'A' <= c <= 'Z' || '0' <= c <= '9' || c == '_' || c == '-' || c == '.' || c == ':'
  }

  predicate DiskNameChars(s: string) {
    forall i :: 0 <= i < |s| ==> IsDiskNameChar(s[i])
  }

  /** What a C buffer of n characters keeps of s. */
  function Clip(s: string, n: nat): string
    requires n > 0
  {
    if |s| < n then s else s[..n - 1]
  }

  /** The parts one after the other, with sep between them. */
  function Join(parts: seq<string>, sep: char): string {
    if parts == [] then []
    else if |parts| == 1 then parts[0]
    else Join(parts[..|parts| - 1], sep) + [sep] + parts[|parts| - 1]
  }

  /** The last component of a slash-separated path. */
  function Basename(path: string): string {
    if path == [] || path[|path| - 1] == '/' then []
    else Basename(path[..|path| - 1]) + [path[|path| - 1]]
  }

  lemma {:induction false} BasenameOf(root: string, s: string)
    requires '/' !in s && (root == [] || root[|root| - 1] == '/')
    ensures Basename(root + s) == s
  {
    if s != [] {
      assert (root + s)[..|root + s| - 1] == root + s[..|s| - 1];
      BasenameOf(root, s[..|s| - 1]);
    } else {
      assert root + s == root;
    }
  }
}
