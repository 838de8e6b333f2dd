/** The parts of Python's `os.path` (POSIX flavour) that the pipeline uses to
    name its files. */
module Paths {
  import opened Strings

  /** `os.path.join(a, b)` on POSIX. */
  function JoinPath(a: string, b: string): string {
    if StartsWith(b, "/") then b
    else if a == "" || EndsWith(a, "/") then a + b
    else a + "/" + b
  }

  /** One past the position of the last '/' of `p`; 0 when there is none. */
  function SlashEnd(p: string): (k: nat)
    ensures k <= |p|
    ensures k > 0 ==> p[k - 1] == '/'
    ensures forall j | k <= j < |p| :: p[j] != '/'
  {
    if p == [] then 0
    else if p[|p| - 1] == '/' then |p|
    else SlashEnd(p[..|p| - 1])
  }

  /** `os.path.dirname(p)` on POSIX: everything up to the last '/', with the
      trailing slashes dropped unless nothing but slashes is left. */
  function Dirname(p: string): string {
    var head := p[..SlashEnd(p)];
    if head != [] && exists j | 0 <= j < |head| :: head[j] != '/' then RStripChars(head, {'/'})
    else head
  }

  /** What `Dirname` returns is empty, ends in something other than '/', or
      is nothing but slashes. */
  predicate DirShaped(d: string) {
    d == [] || d[|d| - 1] != '/' || forall j | 0 <= j < |d| :: d[j] == '/'
  }

  lemma DirnameShaped(p: string)
    ensures DirShaped(Dirname(p))
  {
    RStripCharsEnds(p[..SlashEnd(p)], {'/'});
  }

  /** The directory part of a joined path is the directory it was joined to,
      for every directory `Dirname` can return and a name without a slash. */
  lemma DirnameOfJoin(dir: string, name: string)
    requires DirShaped(dir) && '/' !in name
    ensures Dirname(JoinPath(dir, name)) == dir
  {
    assert !StartsWith(name, "/") by {
      if name != [] {
        assert name[..1][0] == name[0] != '/';
      }
    }
    if dir == [] {
      assert JoinPath(dir, name) == name;
      assert SlashEnd(name) == 0;
    } else if dir[|dir| - 1] != '/' {
      assert !EndsWith(dir, "/");
      var p := dir + "/" + name;
      assert JoinPath(dir, name) == p;
      assert p[|dir|] == '/';
      forall j | |dir| < j < |p| ensures p[j] != '/' {
        assert p[j] == name[j - |dir| - 1];
      }
      var k := SlashEnd(p);
      assert k == |dir| + 1;
      var head := p[..k];
      assert head == dir + "/";
      assert head[|dir| - 1] != '/';
      assert head[..|head| - 1] == dir;
      assert RStripChars(dir, {'/'}) == dir;
      assert RStripChars(head, {'/'}) == dir;
      assert exists j | 0 <= j < |head| :: head[j] != '/' by {
        assert head[|dir| - 1] != '/';
      }
    } else {
      assert EndsWith(dir, "/");
      var p := dir + name;
      assert JoinPath(dir, name) == p;
      assert p[|dir| - 1] == '/';
      forall j | |dir| <= j < |p| ensures p[j] != '/' {
        assert p[j] == name[j - |dir|];
      }
      assert SlashEnd(p) == |dir|;
      assert p[..|dir|] == dir;
    }
  }
}
