/** The avatar directory and the public URL of a stored avatar. The directory
    is the set of file names under the avatar storage root. */
module Avatars {
  import opened Outcome

  /** `s` begins with `prefix`, as JavaScript's `s.startsWith(prefix)`. */
  predicate StartsWith(s: string, prefix: string)
  {
    |prefix| <= |s| && s[..|prefix|] == prefix
  }

  lemma StartsWithTransitive(s: string, p: string, q: string)
    requires StartsWith(s, p + q)
    ensures StartsWith(s, p)
  {
    assert s[..|p|] == (p + q)[..|p|];
  }

  /** `listing` names exactly the files of `dir`, as `fs.readdir` answers. */
  ghost predicate Lists(listing: seq<string>, dir: set<string>)
  {
    forall f :: f in listing <==> f in dir
  }

  /** The for-of loop over the directory listing: each listed file whose name
      starts with the account id is deleted, one file per step. What is left
      is the directory less exactly the listed files of that id; when the
      listing is the whole directory, no file of the id remains and every
      other file does. */
  function DeleteMatching(dir: set<string>, listing: seq<string>, id: string): (r: set<string>)
    ensures r <= dir
    ensures forall f :: f in dir ==> (f in r <==> !(f in listing && StartsWith(f, id)))
    ensures Lists(listing, dir) ==> forall f :: f in r <==> f in dir && !StartsWith(f, id)
  {
    if |listing| == 0 then dir
    else
      var file := listing[0];
      var rest := if StartsWith(file, id) then dir - {file} else dir;
      var r := DeleteMatching(rest, listing[1..], id);
      assert forall f :: f in listing <==> f == file || f in listing[1..];
      r
  }

  /** The name an uploaded avatar is stored under: `{id}_{originalname}`. */
  function AvatarName(id: string, originalname: string): (name: string)
    ensures StartsWith(name, id)
    ensures |name| == |id| + 1 + |originalname| && name[|id| + 1..] == originalname
  {
    var name := id + "_" + originalname;
    assert name[..|id|] == id;
    name
  }

  /** The stored file a public avatar URL points at, when the URL lies under
      `{base}/avatars/`; this is how the static file server reads a URL. */
  function FileOfUrl(base: string, url: string): Option<string>
  {
    var dir := base + "/avatars/";
    if StartsWith(url, dir) then Some(url[|dir|..]) else None
  }

  /** The public URL `{base}/avatars/{name}` of a stored avatar. It keeps the
      base address intact and leads back to the file it was built from. */
  function AvatarUrl(base: string, name: string): (url: string)
    ensures StartsWith(url, base)
    ensures FileOfUrl(base, url) == Some(name)
  {
    var dir := base + "/avatars/";
    var url := dir + name;
    assert url[..|dir|] == dir;
    StartsWithTransitive(url, base, "/avatars/");
    url
  }

  /** No two adjacent characters of `s` are both '/'. */
  predicate NoDoubleSlash(s: string)
  {
    forall i :: 0 <= i < |s| - 1 ==> !(s[i] == '/' && s[i + 1] == '/')
  }

  /** The separator collapsing of POSIX `path.normalize`: every run of '/' becomes a single '/'. */
  function CollapseSeparators(s: string): (r: string)
    ensures |r| <= |s|
    ensures |s| > 0 ==> |r| > 0 && r[0] == s[0]
    ensures NoDoubleSlash(r)
  {
    if |s| < 2 then s
    else if s[0] == '/' && s[1] == '/' then CollapseSeparators(s[1..])
    else [s[0]] + CollapseSeparators(s[1..])
  }

  /** The URL as the controller builds it: `path.join(base, "avatars", name)`,
      which joins with '/' and then normalizes the whole string. */
  function JoinedUrlAsWritten(base: string, name: string): string
  {
    CollapseSeparators(base + "/" + "avatars" + "/" + name)
  }

  /** For a base address with a scheme separator ("http://..."), the joined
      URL no longer starts with the base, and it does not lead back to the
      stored file: normalization has turned "//" into "/". */
  lemma AsWrittenUrlLosesBase(base: string, name: string)
    requires StartsWith(base, "http://")
    ensures !StartsWith(JoinedUrlAsWritten(base, name), base)
    ensures FileOfUrl(base, JoinedUrlAsWritten(base, name)) == None
  {
    var url := JoinedUrlAsWritten(base, name);
    assert base[5] == '/' && base[6] == '/' by {
      assert base[..7] == "http://";
    }
    if StartsWith(url, base + "/avatars/") {
      StartsWithTransitive(url, base, "/avatars/");
    }
  }
}
