/** The pieces of Python's `posixpath` and of `str.split('/')` / `'/'.join`
    that the application uses on remote paths. */
module PosixPath {
  import opened Strings

  /** `os.path.join(a, b)`: an absolute `b` replaces `a`; otherwise a single
      separator is put between them unless `a` is empty or already ends in one. */
  function Join(a: string, b: string): (r: string)
    ensures StartsWith(b, "/") ==> r == b
    ensures !StartsWith(b, "/") ==> StartsWith(r, a) && EndsWith(r, b)
    ensures !StartsWith(b, "/") && (a == [] || EndsWith(a, "/")) ==> |r| == |a| + |b|
    ensures !StartsWith(b, "/") && a != [] && !EndsWith(a, "/") ==> |r| == |a| + 1 + |b| && r[|a|] == '/'
  {
    if StartsWith(b, "/") then b
    else if a == [] || EndsWith(a, "/") then a + b
    else a + "/" + b
  }

  /** `s.rfind('/')`: the index of the last '/', or -1. */
  function RFindSlash(s: string): (r: int)
    ensures -1 <= r < |s|
    ensures r >= 0 ==> s[r] == '/'
    ensures forall i :: r < i < |s| ==> s[i] != '/'
  {
    if s == [] then -1
    else if s[|s| - 1] == '/' then |s| - 1
    else RFindSlash(s[..|s| - 1])
  }

  /** `s.rstrip('/')`. */
  function RStripSlash(s: string): (r: string)
    ensures |r| <= |s| && r == s[..|r|]
    ensures forall i :: |r| <= i < |s| ==> s[i] == '/'
    ensures r == [] || r[|r| - 1] != '/'
    decreases |s|
  {
    if s != [] && s[|s| - 1] == '/' then RStripSlash(s[..|s| - 1]) else s
  }

  predicate AllSlashes(s: string) {
    forall i :: 0 <= i < |s| ==> s[i] == '/'
  }

  /** `os.path.dirname(p)`: everything up to the last '/', with the trailing
      separators removed unless that part is made of separators only. */
  function DirName(p: string): string {
    var head := p[..RFindSlash(p) + 1];
    if head != [] && !AllSlashes(head) then RStripSlash(head) else head
  }

  /** `s.split('/')`, built from the right: a final '/' opens an empty part,
      any other character extends the last part. */
  function Split(s: string): (parts: seq<string>)
    ensures |parts| >= 1
    ensures forall i :: 0 <= i < |parts| ==> '/' !in parts[i]
    decreases |s|
  {
    if s == [] then [""]
    else
      var init := Split(s[..|s| - 1]);
      if s[|s| - 1] == '/' then init + [""]
      else init[..|init| - 1] + [init[|init| - 1] + [s[|s| - 1]]]
  }

  /** `'/'.join(parts)`. */
  function JoinParts(parts: seq<string>): string
    requires |parts| >= 1
  {
    if |parts| == 1 then parts[0]
    else JoinParts(parts[..|parts| - 1]) + "/" + parts[|parts| - 1]
  }

  /** Joining the parts of a split gives the string back. */
  lemma {:induction false} JoinSplit(s: string)
    ensures JoinParts(Split(s)) == s
    decreases |s|
  {
    if s != [] {
      var init := Split(s[..|s| - 1]);
      JoinSplit(s[..|s| - 1]);
      var c := s[|s| - 1];
      assert s == s[..|s| - 1] + [c];
      if c == '/' {
        assert Split(s) == init + [""];
        JoinOpensPart(init);
      } else {
        assert Split(s) == init[..|init| - 1] + [init[|init| - 1] + [c]];
        JoinExtendsPart(init, c);
      }
    }
  }

  /** Adding an empty last part adds a separator. */
  lemma JoinOpensPart(parts: seq<string>)
    requires |parts| >= 1
    ensures JoinParts(parts + [""]) == JoinParts(parts) + "/"
  {
    assert (parts + [""])[..|parts|] == parts;
  }

  /** Extending the last part extends the joined string. */
  lemma JoinExtendsPart(parts: seq<string>, c: char)
    requires |parts| >= 1
    ensures JoinParts(parts[..|parts| - 1] + [parts[|parts| - 1] + [c]]) == JoinParts(parts) + [c]
  {
    var extended := parts[..|parts| - 1] + [parts[|parts| - 1] + [c]];
    if |parts| > 1 {
      assert extended[..|extended| - 1] == parts[..|parts| - 1];
    }
  }

  /** A string splits into more than one part exactly when it holds a '/'. */
  lemma {:induction false} SplitCount(s: string)
    ensures |Split(s)| > 1 <==> '/' in s
    decreases |s|
  {
    if s != [] {
      SplitCount(s[..|s| - 1]);
      assert s == s[..|s| - 1] + [s[|s| - 1]];
    }
  }
}
