/**
  Where containers share a file after all: a last path element of 14 bytes or
  more leaves no room for the suffix of the private name, so the private path
  leads to the original.
 */
module ContainerLimits {
  import opened Container
  import opened Creation
  import opened FsBytes
  import opened FsVolume
  import opened Namei
  import opened Names
  import opened Paths
  import opened PrivateNames
  import opened Results

  // The fields with t behind the last one.
  function Longer(f: seq<Bytes>, t: Bytes): (r: seq<Bytes>)
    requires f != []
    ensures |r| == |f| && forall k :: 0 <= k < |f| ==> r[k] == if k == |f| - 1 then f[k] + t else f[k]
  {
    f[..|f| - 1] + [f[|f| - 1] + t]
  }

  lemma LongerFirst(b: Bytes, r: seq<Bytes>, t: Bytes)
    requires r != []
    ensures Longer([[]] + r, t) == [[]] + Longer(r, t)
    ensures var q := Longer(r, t); Longer([b + r[0]] + r[1..], t) == [b + q[0]] + q[1..]
  {
    assert b + (r[0] + t) == b + r[0] + t;
  }

  lemma {:induction false} SplitAppend(s: Bytes, t: Bytes)
    requires Plain(t)
    ensures Split(s + t) == Longer(Split(s), t)
  {
    if s == [] {
      assert s + t == t && t + [] == t;
      SplitPlain(t, []);
    } else {
      SplitAppend(s[1..], t);
      assert (s + t)[1..] == s[1..] + t;
      LongerFirst([s[0]], Split(s[1..]), t);
      hide Longer;
    }
  }

  lemma {:induction false} NonEmptyAppend(f: seq<Bytes>, x: Bytes)
    requires x != []
    ensures NonEmpty(f + [x]) == NonEmpty(f) + [x]
  {
    if f == [] {
      assert f + [x] == [x];
    } else {
      assert (f + [x])[1..] == f[1..] + [x];
      NonEmptyAppend(f[1..], x);
    }
  }

  lemma {:induction false} LastField(s: Bytes)
    requires s != [] && s[|s| - 1] != SLASH
    ensures var f := Split(s); f[|f| - 1] != []
  {
    if |s| > 1 {
      LastField(s[1..]);
    }
  }

  // The suffix goes to the last element of a path that does not end in a slash.
  lemma SuffixedPath(path: Bytes, cid: nat)
    requires path != [] && path[|path| - 1] != SLASH
    ensures var p, q := Components(path), Components(PrivateName(path, cid));
            p != [] && q == p[..|p| - 1] + [p[|p| - 1] + Suffix(cid)]
  {
    var f, t := Split(path), Suffix(cid);
    assert Plain(t) by {
      forall j | 0 <= j < |t|
        ensures t[j] != SLASH
      {
        assert j > 0 ==> t[j] == Decimal(cid)[j - 1];
      }
    }
    LastField(path);
    SplitAppend(path, t);
    var front, last := f[..|f| - 1], f[|f| - 1];
    assert f == front + [last];
    NonEmptyAppend(front, last);
    NonEmptyAppend(front, last + t);
  }

  lemma {:induction false} WalkCut(v: Volume, dirs: Dirs, ip: nat, p: seq<Bytes>, q: seq<Bytes>)
    requires |p| == |q| && forall k :: 0 <= k < |p| ==> Cut(p[k]) == Cut(q[k])
    ensures Walk(v, dirs, ip, p) == Walk(v, dirs, ip, q)
    decreases |p|
  {
    hide Cut, Listing;
    if p != [] {
      if ip < |v.inodes| && v.inodes[ip].typ == T_DIR && Cut(p[0]) in Listing(v, dirs, ip) {
        WalkCut(v, dirs, Listing(v, dirs, ip)[Cut(p[0])], p[1..], q[1..]);
      }
    }
  }

  /** The suffix is cut off again exactly where the name has no room for it. */
  lemma SuffixCut(c: Bytes, cid: nat)
    ensures Cut(c + Suffix(cid)) == Cut(c) <==> |c| >= DIRSIZ
  {
    hide Decimal;
    if |c| >= DIRSIZ {
      assert (c + Suffix(cid))[..DIRSIZ] == c[..DIRSIZ];
    } else {
      assert |Cut(c + Suffix(cid))| > |c|;
    }
  }

  /**
    A path whose last element has 14 bytes or more is its own private path, in
    every container and on every image: such a file is never isolated.
   */
  lemma LongNameShared(v: Volume, dirs: Dirs, path: Bytes, cid: nat, cwd: nat)
    requires path != [] && path[|path| - 1] != SLASH && Components(path) != []
    requires |Components(path)[|Components(path)| - 1]| >= DIRSIZ
    ensures var start := Start(path, cwd);
            var ip := Walk(v, dirs, start, Components(path));
            && Walk(v, dirs, start, Components(PrivateName(path, cid))) == ip
            && (ip.Some? ==> !Separate(v, dirs, start, Components(PrivateName(path, cid)), ip.value))
  {
    var p, q := Components(path), Components(PrivateName(path, cid));
    SuffixedPath(path, cid);
    SuffixCut(p[|p| - 1], cid);
    hide Cut, Components, Walk, PrivateName;
    WalkCut(v, dirs, Start(path, cwd), p, q);
  }
}
