/** Names derived for one backup job in src/backup.ts: the filesystem-safe
    timestamp, the archive file name, the local temporary path, the object key
    in the bucket, and the parent directory computed with split/slice/join. */
module Naming {

  const Slash: char := '/'

  /** The characters matched by the class `[:.]` of the timestamp regex. */
  predicate IsSep(c: char) {
    c == ':' || c == '.'
  }

  // ---------------------------------------------------------------------------
  // Timestamp sanitising: `date.replace(/[:.]+/g, '-')`
  // ---------------------------------------------------------------------------

  /** Drops the leading run of separators (what one greedy match of `[:.]+` consumes). */
  function DropRun(s: string): (r: string)
    ensures |r| <= |s|
    ensures r == [] || !IsSep(r[0])
  {
    if s != [] && IsSep(s[0]) then DropRun(s[1..]) else s
  }

  /** A global, greedy replace: the regex matches leftmost and longest, so each
      match is a whole maximal run of separators and becomes one '-'. */
  function Sanitize(s: string): (r: string)
    ensures ':' !in r && '.' !in r
    ensures |r| <= |s|
    decreases |s|
  {
    if s == [] then []
    else if IsSep(s[0]) then "-" + Sanitize(DropRun(s[1..]))
    else [s[0]] + Sanitize(s[1..])
  }

  /** Reference definition: one left-to-right pass that remembers whether the
      previous character was a separator and writes '-' only at the start of a run. */
  function Scan(s: string, inRun: bool): string
  {
    if s == [] then [] else Emit(s[0], inRun) + Scan(s[1..], IsSep(s[0]))
  }

  /** What the pass writes for one character `c`, given whether `c` continues a run. */
  function Emit(c: char, inRun: bool): string {
    if !IsSep(c) then [c] else if inRun then [] else "-"
  }

  /** Whether the scan is inside a run after reading `s`, starting in state `inRun`. */
  function EndsInRun(s: string, inRun: bool): bool {
    if s == [] then inRun else IsSep(s[|s| - 1])
  }

  lemma {:induction false} ScanSkipsRun(s: string)
    ensures Scan(s, true) == Scan(DropRun(s), true)
    decreases |s|
  {
    if s != [] && IsSep(s[0]) {
      ScanSkipsRun(s[1..]);
    }
  }

  lemma ScanFreshStart(s: string)
    requires s == [] || !IsSep(s[0])
    ensures Scan(s, true) == Scan(s, false)
  {
  }

  /** The regex replace and the one-pass scan agree on every string. */
  lemma {:induction false} SanitizeIsScan(s: string)
    ensures Sanitize(s) == Scan(s, false)
    decreases |s|
  {
    if s == [] {
    } else if IsSep(s[0]) {
      var rest := DropRun(s[1..]);
      ScanSkipsRun(s[1..]);
      ScanFreshStart(rest);
      SanitizeIsScan(rest);
    } else {
      SanitizeIsScan(s[1..]);
    }
  }

  lemma ScanCons(c: char, rest: string, inRun: bool)
    ensures Scan([c] + rest, inRun) == Emit(c, inRun) + Scan(rest, IsSep(c))
  {
    assert ([c] + rest)[0] == c && ([c] + rest)[1..] == rest;
  }

  lemma Assoc<T>(a: seq<T>, b: seq<T>, c: seq<T>)
    ensures a + (b + c) == (a + b) + c
  {
  }

  lemma {:induction false} ScanAppend(p: string, q: string, inRun: bool)
    ensures Scan(p + q, inRun) == Scan(p, inRun) + Scan(q, EndsInRun(p, inRun))
    decreases |p|
  {
    if p == [] {
      assert p + q == q;
    } else {
      var c, p' := p[0], p[1..];
      assert p == [c] + p';
      Assoc([c], p', q);
      ScanCons(c, p' + q, inRun);
      ScanCons(c, p', inRun);
      ScanAppend(p', q, IsSep(c));
      if p' != [] {
        assert p'[|p'| - 1] == p[|p| - 1];
      }
      Assoc(Emit(c, inRun), Scan(p', IsSep(c)), Scan(q, EndsInRun(p, inRun)));
    }
  }

  lemma {:induction false} ScanClean(s: string, inRun: bool)
    requires ':' !in s && '.' !in s
    ensures Scan(s, inRun) == s
    decreases |s|
  {
    if s != [] {
      assert s[0] in s;
      assert forall c :: c in s[1..] ==> c in s;
      ScanClean(s[1..], false);
    }
  }

  lemma {:induction false} ScanInsideRun(s: string)
    requires forall i :: 0 <= i < |s| ==> IsSep(s[i])
    ensures Scan(s, true) == []
    decreases |s|
  {
    if s != [] {
      ScanInsideRun(s[1..]);
    }
  }

  /** Characters other than ':' and '.' are kept as they are. */
  lemma SanitizeClean(s: string)
    requires ':' !in s && '.' !in s
    ensures Sanitize(s) == s
  {
    SanitizeIsScan(s);
    ScanClean(s, false);
  }

  /** A whole run of separators becomes exactly one '-'. */
  lemma SanitizeRun(s: string)
    requires s != []
    requires forall i :: 0 <= i < |s| ==> IsSep(s[i])
    ensures Sanitize(s) == "-"
  {
    SanitizeIsScan(s);
    ScanInsideRun(s[1..]);
  }

  /** Where no run of separators straddles the cut, sanitising distributes over
      concatenation. With SanitizeClean and SanitizeRun this pins down the
      result: each maximal run becomes one '-', everything else stays in order. */
  lemma SanitizeAppend(p: string, q: string)
    requires p == [] || q == [] || !IsSep(p[|p| - 1]) || !IsSep(q[0])
    ensures Sanitize(p + q) == Sanitize(p) + Sanitize(q)
  {
    SanitizeIsScan(p + q);
    SanitizeIsScan(p);
    SanitizeIsScan(q);
    ScanAppend(p, q, false);
    if q != [] && !IsSep(q[0]) {
      ScanFreshStart(q);
    }
  }

  /** Sanitising an already sanitised timestamp changes nothing. */
  lemma SanitizeIdempotent(s: string)
    ensures Sanitize(Sanitize(s)) == Sanitize(s)
  {
    SanitizeClean(Sanitize(s));
  }

  lemma {:induction false} SanitizeKeepsNoSlash(s: string)
    requires Slash !in s
    ensures Slash !in Sanitize(s)
    decreases |s|
  {
    if s != [] {
      assert forall c :: c in s[1..] ==> c in s;
      if IsSep(s[0]) {
        var rest := DropRun(s[1..]);
        assert rest == s[1..][|s[1..]| - |rest|..] by { DropRunIsSuffix(s[1..]); }
        assert forall c :: c in rest ==> c in s[1..];
        SanitizeKeepsNoSlash(rest);
      } else {
        SanitizeKeepsNoSlash(s[1..]);
      }
    }
  }

  lemma {:induction false} DropRunIsSuffix(s: string)
    ensures |DropRun(s)| <= |s| && DropRun(s) == s[|s| - |DropRun(s)|..]
    decreases |s|
  {
    if s != [] && IsSep(s[0]) {
      DropRunIsSuffix(s[1..]);
    }
  }

  /** Each separator replaced by '-' on its own, position by position. */
  function Dashed(s: string): (r: string)
    ensures |r| == |s|
  {
    seq(|s|, i requires 0 <= i < |s| => if IsSep(s[i]) then '-' else s[i])
  }

  predicate NoAdjacentSeps(s: string) {
    forall i :: 0 <= i < |s| - 1 ==> !(IsSep(s[i]) && IsSep(s[i + 1]))
  }

  lemma {:induction false} ScanIsolated(s: string, inRun: bool)
    requires NoAdjacentSeps(s)
    requires inRun ==> s == [] || !IsSep(s[0])
    ensures Scan(s, inRun) == Dashed(s)
    decreases |s|
  {
    if s != [] {
      assert NoAdjacentSeps(s[1..]) by {
        forall i | 0 <= i < |s[1..]| - 1 ensures !(IsSep(s[1..][i]) && IsSep(s[1..][i + 1])) {
          assert s[1..][i] == s[i + 1] && s[1..][i + 1] == s[i + 2];
        }
      }
      ScanIsolated(s[1..], IsSep(s[0]));
      assert Dashed(s) == Dashed(s[..1]) + Dashed(s[1..]);
    }
  }

  /** When no two separators are adjacent, every run has length one and the
      replace works character by character. */
  lemma SanitizeIsolated(s: string)
    requires NoAdjacentSeps(s)
    ensures Sanitize(s) == Dashed(s)
  {
    SanitizeIsScan(s);
    ScanIsolated(s, false);
  }

  // ---------------------------------------------------------------------------
  // ISO timestamps as produced by `Date.prototype.toISOString`
  // ---------------------------------------------------------------------------

  predicate IsDigit(c: char) {
    '0' <= c <= '9'
  }

  /** The shape `YYYY-MM-DDTHH:mm:ss.sssZ` (a four-digit year). */
  predicate IsIsoTimestamp(s: string) {
    |s| == 24 &&
    (forall i :: 0 <= i < 24 && i !in {4, 7, 10, 13, 16, 19, 23} ==> IsDigit(s[i])) &&
    s[4] == '-' && s[7] == '-' && s[10] == 'T' &&
    s[13] == ':' && s[16] == ':' && s[19] == '.' && s[23] == 'Z'
  }

  lemma IsoHasIsolatedSeps(s: string)
    requires IsIsoTimestamp(s)
    ensures NoAdjacentSeps(s)
    ensures Slash !in s
  {
    forall i | 0 <= i < 24 && i !in {13, 16, 19}
      ensures !IsSep(s[i]) && s[i] != Slash
    {
    }
  }

  /** The sanitised form of a timestamp: same length, each of the two colons and
      the period replaced by '-', every other character kept in place. */
  lemma SanitizeIso(s: string)
    requires IsIsoTimestamp(s)
    ensures Sanitize(s) == s[..13] + "-" + s[14..16] + "-" + s[17..19] + "-" + s[20..]
  {
    IsoHasIsolatedSeps(s);
    SanitizeIsolated(s);
    var d := Dashed(s);
    var e := s[..13] + "-" + s[14..16] + "-" + s[17..19] + "-" + s[20..];
    assert |d| == |e|;
    forall i | 0 <= i < 24 ensures d[i] == e[i] {
      if i !in {13, 16, 19} {
        assert !IsSep(s[i]);
      }
    }
  }

  /** Two different timestamps never sanitise to the same text, so two runs at
      different instants never reuse a file name or an object key. */
  lemma SanitizeIsoInjective(a: string, b: string)
    requires IsIsoTimestamp(a) && IsIsoTimestamp(b)
    requires a != b
    ensures Sanitize(a) != Sanitize(b)
  {
    SanitizeIso(a);
    SanitizeIso(b);
    var i :| 0 <= i < 24 && a[i] != b[i];
    assert i !in {13, 16, 19};
    assert Sanitize(a)[i] == a[i] && Sanitize(b)[i] == b[i];
  }

  // ---------------------------------------------------------------------------
  // File name, local path and object key
  // ---------------------------------------------------------------------------

  /** `backup-${timestamp}.tar.gz` */
  function FileName(timestamp: string): string {
    "backup-" + timestamp + ".tar.gz"
  }

  /** `/tmp/${name}/${filename}` */
  function LocalPath(name: string, filename: string): string {
    "/tmp/" + name + [Slash] + filename
  }

  /** `${prefix}/${name}`, the Key of the upload. */
  function ObjectKey(prefix: string, name: string): string {
    prefix + [Slash] + name
  }

  /** The timestamp can be read back from the middle of the file name, and the
      name holds a '/' only if the timestamp does. */
  lemma FileNameParts(timestamp: string)
    ensures |FileName(timestamp)| == |timestamp| + 14
    ensures FileName(timestamp)[7..|timestamp| + 7] == timestamp
    ensures Slash in FileName(timestamp) <==> Slash in timestamp
  {
  }

  /** When the name has no '/', splitting the key as a path gives back the
      prefix and the name. */
  lemma ObjectKeyParts(prefix: string, name: string)
    requires Slash !in name
    ensures Dir(ObjectKey(prefix, name)) == prefix
    ensures Base(ObjectKey(prefix, name)) == name
  {
    var key := ObjectKey(prefix, name);
    SplitSnoc(prefix, name);
    var parts := Split(key);
    assert parts[..|parts| - 1] == Split(prefix);
    JoinSplit(prefix);
  }

  /** The local path is the object key under `/tmp/`, and its parent directory
      is `/tmp/<name>` whatever the name holds, as long as the file name has
      no '/'. */
  lemma LocalPathParts(name: string, filename: string)
    ensures LocalPath(name, filename) == "/tmp/" + ObjectKey(name, filename)
    ensures Slash !in filename ==> Dir(LocalPath(name, filename)) == "/tmp/" + name
    ensures Slash !in filename ==> Base(LocalPath(name, filename)) == filename
  {
    if Slash !in filename {
      assert LocalPath(name, filename) == ObjectKey("/tmp/" + name, filename);
      ObjectKeyParts("/tmp/" + name, filename);
    }
  }

  /** Jobs for the same name at different instants write to different files
      and to different keys. */
  lemma DistinctTimestampsDistinctNames(name: string, a: string, b: string)
    requires IsIsoTimestamp(a) && IsIsoTimestamp(b) && a != b
    ensures FileName(Sanitize(a)) != FileName(Sanitize(b))
    ensures ObjectKey(name, FileName(Sanitize(a))) != ObjectKey(name, FileName(Sanitize(b)))
    ensures LocalPath(name, FileName(Sanitize(a))) != LocalPath(name, FileName(Sanitize(b)))
  {
    SanitizeIsoInjective(a, b);
    var fa, fb := FileName(Sanitize(a)), FileName(Sanitize(b));
    assert fa != fb by {
      FileNameParts(Sanitize(a));
      FileNameParts(Sanitize(b));
    }
    var ka, kb := ObjectKey(name, fa), ObjectKey(name, fb);
    assert ka != kb by {
      assert ka[|name| + 1..] == fa && kb[|name| + 1..] == fb;
    }
    LocalPathParts(name, fa);
    LocalPathParts(name, fb);
    assert LocalPath(name, fa)[5..] == ka && LocalPath(name, fb)[5..] == kb;
  }

  // ---------------------------------------------------------------------------
  // `filePath.split('/').slice(0, -1).join('/')`
  // ---------------------------------------------------------------------------

  /** `String.prototype.split` with the one-character separator '/'. */
  function Split(s: string): (parts: seq<string>)
    ensures |parts| >= 1
    ensures forall k :: 0 <= k < |parts| ==> Slash !in parts[k]
  {
    if s == [] then [""]
    else
      var rest := Split(s[1..]);
      if s[0] == Slash then [""] + rest
      else [[s[0]] + rest[0]] + rest[1..]
  }

  /** `Array.prototype.join('/')`; the empty array joins to "". */
  function Join(parts: seq<string>): string
  {
    if parts == [] then ""
    else if |parts| == 1 then parts[0]
    else parts[0] + [Slash] + Join(parts[1..])
  }

  /** The parent directory: every segment but the last, joined again. */
  function Dir(path: string): string {
    var parts := Split(path);
    Join(parts[..|parts| - 1])
  }

  /** The last segment, what `Dir` drops. */
  function Base(path: string): string {
    var parts := Split(path);
    parts[|parts| - 1]
  }

  /** Splitting undoes joining a non-empty array of parts that hold no '/'. */
  lemma {:induction false} SplitJoin(parts: seq<string>)
    requires |parts| >= 1
    requires forall k :: 0 <= k < |parts| ==> Slash !in parts[k]
    ensures Split(Join(parts)) == parts
    decreases |parts|
  {
    if |parts| == 1 {
      SplitNoSlash(parts[0]);
    } else {
      assert forall k :: 0 <= k < |parts[1..]| ==> parts[1..][k] == parts[k + 1];
      SplitJoin(parts[1..]);
      SplitSlashCons(parts[0], Join(parts[1..]));
      assert parts == [parts[0]] + parts[1..];
    }
  }

  /** For a path holding '/', the parent directory is what precedes the last
      '/': it, a '/' and the last segment give back the path, and that segment
      holds no '/'. Without any '/', the parent directory is "". */
  lemma DirParts(path: string)
    ensures Slash in path ==> Dir(path) + [Slash] + Base(path) == path
    ensures Slash !in Base(path)
    ensures Slash !in path ==> Dir(path) == ""
  {
    if Slash in path {
      SplitHasTwoParts(path);
      JoinSplit(path);
      JoinSnoc(Split(path));
    } else {
      SplitNoSlash(path);
    }
  }

  /** Joining the parts of a split gives back the string. */
  lemma {:induction false} JoinSplit(s: string)
    ensures Join(Split(s)) == s
    decreases |s|
  {
    if s != [] {
      JoinSplit(s[1..]);
      var rest := Split(s[1..]);
      if s[0] != Slash && |rest| > 1 {
        assert rest == [rest[0]] + rest[1..];
        assert Join(rest) == rest[0] + [Slash] + Join(rest[1..]);
      }
    }
  }

  lemma {:induction false} SplitNoSlash(s: string)
    requires Slash !in s
    ensures Split(s) == [s]
    decreases |s|
  {
    if s != [] {
      assert forall c :: c in s[1..] ==> c in s;
      SplitNoSlash(s[1..]);
      assert s == [s[0]] + s[1..];
    }
  }

  lemma {:induction false} SplitSlashCons(a: string, b: string)
    requires Slash !in a
    ensures Split(a + [Slash] + b) == [a] + Split(b)
    decreases |a|
  {
    if a == [] {
      assert a + [Slash] + b == [Slash] + b;
      assert ([Slash] + b)[1..] == b;
    } else {
      assert (a + [Slash] + b)[1..] == a[1..] + [Slash] + b;
      assert a[0] in a;
      assert forall c :: c in a[1..] ==> c in a;
      SplitSlashCons(a[1..], b);
      assert a == [a[0]] + a[1..];
    }
  }

  lemma {:induction false} SplitSnoc(a: string, b: string)
    requires Slash !in b
    ensures Split(a + [Slash] + b) == Split(a) + [b]
    decreases |a|
  {
    if a == [] {
      assert a + [Slash] + b == [Slash] + b;
      assert ([Slash] + b)[1..] == b;
      SplitNoSlash(b);
    } else {
      assert (a + [Slash] + b)[1..] == a[1..] + [Slash] + b;
      SplitSnoc(a[1..], b);
    }
  }

  lemma {:induction false} JoinSnoc(parts: seq<string>)
    requires |parts| >= 2
    ensures Join(parts) == Join(parts[..|parts| - 1]) + [Slash] + parts[|parts| - 1]
    decreases |parts|
  {
    if |parts| > 2 {
      JoinSnoc(parts[1..]);
      assert parts[1..][..|parts| - 2] == parts[..|parts| - 1][1..];
    }
  }

  lemma SplitHasTwoParts(s: string)
    requires Slash in s
    ensures |Split(s)| >= 2
  {
    JoinSplit(s);
  }

  /** Jobs whose labels differ write under different directories, so their
      temporary files never collide. */
  lemma DistinctLabelsDistinctPaths(l1: string, f1: string, l2: string, f2: string)
    requires Slash !in f1 && Slash !in f2
    requires l1 != l2
    ensures LocalPath(l1, f1) != LocalPath(l2, f2)
  {
    LocalPathParts(l1, f1);
    LocalPathParts(l2, f2);
    assert ("/tmp/" + l1)[5..] == l1 && ("/tmp/" + l2)[5..] == l2;
  }

  /** The directories `mkdir(dir, { recursive: true })` ensures exist: `dir`
      itself and every ancestor, that is each non-empty prefix of `dir` that
      ends just before a '/'. */
  function Lineage(dir: string): (r: set<string>)
    ensures dir != "" ==> dir in r
    ensures forall p :: p in r ==> p != "" && p <= dir
  {
    var r := set k | 0 < k <= |dir| && (k == |dir| || dir[k] == Slash) :: dir[..k];
    assert dir[..|dir|] == dir;
    r
  }

  /** Exactly the directory and its ancestors: a path is in the lineage of
      `dir` when it is a non-empty prefix of `dir` that is `dir` itself or is
      followed there by a '/'. */
  lemma LineageMembers(dir: string, p: string)
    ensures p in Lineage(dir) <==> p != "" && p <= dir && (|p| == |dir| || dir[|p|] == Slash)
  {
    if p != "" && p <= dir && (|p| == |dir| || dir[|p|] == Slash) {
      assert p == dir[..|p|];
    }
  }
}
