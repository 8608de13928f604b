/** The parts of posixpath the scanners and resolvers use. */
module PosixPath {

  predicate StartsWith(s: string, prefix: string) {
    |prefix| <= |s| && s[..|prefix|] == prefix
  }

  predicate AllSlashes(s: string) {
    forall i :: 0 <= i < |s| ==> s[i] == '/'
  }

  /** One past the last slash, or 0. */
  function TailStart(p: string): (i: nat)
    ensures i <= |p| && (i > 0 ==> p[i - 1] == '/')
    ensures forall k :: i <= k < |p| ==> p[k] != '/'
  {
    if p == "" || p[|p| - 1] == '/' then |p| else TailStart(p[..|p| - 1])
  }

  function StripTrailingSlashes(s: string): (r: string)
    ensures r <= s && (r != "" ==> r[|r| - 1] != '/')
  {
    if s != "" && s[|s| - 1] == '/' then StripTrailingSlashes(s[..|s| - 1]) else s
  }

  function StripLeadingSlashes(s: string): (r: string)
    ensures r != "" ==> r[0] != '/'
  {
    if s != "" && s[0] == '/' then StripLeadingSlashes(s[1..]) else s
  }

  function Basename(p: string): string {
    p[TailStart(p)..]
  }

  function Dirname(p: string): string {
    var head := p[..TailStart(p)];
    if AllSlashes(head) then head else StripTrailingSlashes(head)
  }

  lemma TailStartOf(dir: string, name: string)
    requires '/' !in name
    ensures TailStart(dir + "/" + name) == |dir| + 1 && TailStart(name) == 0
  {
    var p := dir + "/" + name;
    assert forall k :: |dir| < k < |p| ==> p[k] == name[k - |dir| - 1];
    assert p[|dir|] == '/';
  }

  lemma PartsOf(dir: string, name: string)
    requires '/' !in name && dir != "" && dir[|dir| - 1] != '/'
    ensures Basename(dir + "/" + name) == name && Dirname(dir + "/" + name) == dir
    ensures Basename(name) == name && Dirname(name) == ""
  {
    TailStartOf(dir, name);
    var head := (dir + "/" + name)[..|dir| + 1];
    assert head == dir + "/";
    assert head[|dir| - 1] == dir[|dir| - 1];
    assert head[..|dir|] == dir;
    assert StripTrailingSlashes(dir) == dir;
    assert name[..0] == "";
  }

  function Join(a: string, b: string): string {
    if StartsWith(b, "/") then b
    else if a == "" || a[|a| - 1] == '/' then a + b
    else a + "/" + b
  }

  /** The parts of a path between slashes. */
  function Components(p: string): (cs: seq<string>)
    ensures cs != []
  {
    if p == "" then [""]
    else
      var cs := Components(p[..|p| - 1]);
      if p[|p| - 1] == '/' then cs + [""]
      else cs[..|cs| - 1] + [cs[|cs| - 1] + [p[|p| - 1]]]
  }

  /** The components left after dots, empty parts and parents are worked out. */
  function Reduced(components: seq<string>, absolute: bool): seq<string> {
    if components == [] then []
    else
      var c := components[|components| - 1];
      var rest := Reduced(components[..|components| - 1], absolute);
      if c == "" || c == "." then rest
      else if c != ".." || (!absolute && rest == []) || (rest != [] && rest[|rest| - 1] == "..") then rest + [c]
      else if rest != [] then rest[..|rest| - 1]
      else rest
  }

  function JoinComponents(components: seq<string>): string {
    if components == [] then ""
    else if |components| == 1 then components[0]
    else JoinComponents(components[..|components| - 1]) + "/" + components[|components| - 1]
  }

  /** Slashes that stay at the start: two exactly when the path begins with just two. */
  function InitialSlashes(p: string): string {
    if !StartsWith(p, "/") then ""
    else if StartsWith(p, "//") && !StartsWith(p, "///") then "//"
    else "/"
  }

  function Normpath(p: string): string {
    var slashes := InitialSlashes(p);
    var normal := slashes + JoinComponents(Reduced(Components(p), slashes != ""));
    if normal == "" then "." else normal
  }
}
