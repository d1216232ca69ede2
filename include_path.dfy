/**
 * The INCLUDE_PATH handling of the tool's entry point: the environment
 * string is split on ';', empty pieces are dropped, and every remaining
 * piece is registered, in order, as a system include directory.
 */
module IncludePath {

  /** The delimiter the environment variable uses between paths. */
  const Delimiter: char := ';'

  /** Index of the first delimiter in `s`, or `|s|` when there is none. */
  function DelimiterIndex(s: string): (k: nat)
    ensures k <= |s|
  {
    if |s| == 0 || s[0] == Delimiter then 0 else 1 + DelimiterIndex(s[1..])
  }

  /**
   * Every maximal run between delimiters, empty runs included: a string
   * with n delimiters has n + 1 segments.
   */
  function Segments(s: string): (r: seq<string>)
    ensures |r| >= 1
    decreases |s|
  {
    var k := DelimiterIndex(s);
    if k == |s| then [s] else [s[..k]] + Segments(s[k + 1..])
  }

  /** The pieces of `ps` written one after another with a delimiter between each two. */
  function Join(ps: seq<string>): string
  {
    if |ps| == 0 then "" else if |ps| == 1 then ps[0] else ps[0] + [Delimiter] + Join(ps[1..])
  }

  /** `ps` with its empty strings removed, the others kept in order. */
  function NonEmpty(ps: seq<string>): (r: seq<string>)
    ensures |r| <= |ps|
  {
    if |ps| == 0 then []
    else if ps[0] == "" then NonEmpty(ps[1..])
    else [ps[0]] + NonEmpty(ps[1..])
  }

  /**
   * The paths handed to AddPath for a given INCLUDE_PATH value, in call
   * order: the segments that are not empty. There are at most as many as
   * segments, and each is a legal path.
   */
  function Registered(includePath: string): (paths: seq<string>)
    ensures |paths| <= |Segments(includePath)|
    ensures AllPaths(paths)
  {
    SegmentsDelimiterFree(includePath);
    NonEmptyKeeps(Segments(includePath));
    NonEmpty(Segments(includePath))
  }

  /** The path, if any, that one token registers. */
  function Kept(token: string): seq<string>
  {
    if token == "" then [] else [token]
  }

  /** The pieces of `ps` written one after another with nothing between them. */
  function Concat(ps: seq<string>): string
  {
    if |ps| == 0 then "" else ps[0] + Concat(ps[1..])
  }

  /** `s` with every delimiter character deleted. */
  function Strip(s: string): string
  {
    if |s| == 0 then "" else (if s[0] == Delimiter then "" else [s[0]]) + Strip(s[1..])
  }

  /** True when every string of `ps` is a legal registered path. */
  predicate AllPaths(ps: seq<string>)
  {
    forall i :: 0 <= i < |ps| ==> ps[i] != "" && Delimiter !in ps[i]
  }

  /** True when no string of `ps` holds a delimiter. */
  predicate AllDelimiterFree(ps: seq<string>)
  {
    forall i :: 0 <= i < |ps| ==> Delimiter !in ps[i]
  }

  // ---------------------------------------------------------------------
  // Properties of the split
  // ---------------------------------------------------------------------

  /** `DelimiterIndex` finds the first delimiter: none stands before it, and it is one unless it is the end. */
  lemma {:induction false} DelimiterIndexFirst(s: string)
    ensures DelimiterIndex(s) < |s| ==> s[DelimiterIndex(s)] == Delimiter
    ensures Delimiter !in s[..DelimiterIndex(s)]
    decreases |s|
  {
    if |s| > 0 && s[0] != Delimiter {
      DelimiterIndexFirst(s[1..]);
      var k := DelimiterIndex(s);
      assert s[..k] == [s[0]] + s[1..][..k - 1];
    }
  }

  /** No segment contains a delimiter. */
  lemma {:induction false} SegmentsDelimiterFree(s: string)
    ensures AllDelimiterFree(Segments(s))
    decreases |s|
  {
    var k := DelimiterIndex(s);
    DelimiterIndexFirst(s);
    if k < |s| {
      SegmentsDelimiterFree(s[k + 1..]);
      assert Segments(s) == [s[..k]] + Segments(s[k + 1..]);
    } else {
      assert s[..k] == s;
    }
  }

  /** Where the first delimiter of a concatenation lies. */
  lemma {:induction false} DelimiterIndexAppend(a: string, t: string)
    ensures DelimiterIndex(a + t) ==
      if DelimiterIndex(a) < |a| then DelimiterIndex(a) else |a| + DelimiterIndex(t)
    decreases |a|
  {
    if |a| == 0 {
      assert a + t == t;
    } else if a[0] != Delimiter {
      assert (a + t)[1..] == a[1..] + t;
      DelimiterIndexAppend(a[1..], t);
    }
  }

  /** A string without delimiters is its own only segment. */
  lemma SegmentsOfRun(p: string)
    requires Delimiter !in p
    ensures Segments(p) == [p]
  {
    DelimiterIndexFirst(p);
  }

  /** Splitting a concatenation at one delimiter splits the two sides separately. */
  lemma {:induction false} SegmentsAppend(a: string, b: string)
    ensures Segments(a + [Delimiter] + b) == Segments(a) + Segments(b)
    decreases |a|
  {
    var s := a + [Delimiter] + b;
    var k := DelimiterIndex(a);
    DelimiterIndexAppend(a, [Delimiter] + b);
    assert s == a + ([Delimiter] + b);
    if k == |a| {
      assert DelimiterIndex(s) == |a|;
      assert s[..|a|] == a;
      assert s[|a| + 1..] == b;
    } else {
      assert DelimiterIndex(s) == k;
      assert s[..k] == a[..k];
      assert s[k + 1..] == a[k + 1..] + [Delimiter] + b;
      SegmentsAppend(a[k + 1..], b);
    }
  }

  /** A value with n delimiters has n + 1 segments. */
  lemma {:induction false} SegmentsCount(s: string)
    ensures |Segments(s)| == multiset(s)[Delimiter] + 1
    decreases |s|
  {
    var k := DelimiterIndex(s);
    DelimiterIndexFirst(s);
    if k == |s| {
      assert s[..k] == s;
    } else {
      SegmentsCount(s[k + 1..]);
      assert s == s[..k] + [s[k]] + s[k + 1..];
    }
  }

  /** Split / join round trip: joining the segments gives back the input. */
  lemma {:induction false} JoinSegments(s: string)
    ensures Join(Segments(s)) == s
    decreases |s|
  {
    var k := DelimiterIndex(s);
    DelimiterIndexFirst(s);
    if k < |s| {
      var rest := Segments(s[k + 1..]);
      JoinSegments(s[k + 1..]);
      var r := [s[..k]] + rest;
      assert Segments(s) == r;
      assert r[1..] == rest;
      assert Join(r) == s[..k] + [Delimiter] + Join(rest);
      assert s == s[..k] + [Delimiter] + s[k + 1..];
    }
  }

  /** Join / split round trip: a non-empty list of delimiter-free pieces is recovered. */
  lemma {:induction false} SegmentsJoin(ps: seq<string>)
    requires |ps| >= 1
    requires AllDelimiterFree(ps)
    ensures Segments(Join(ps)) == ps
  {
    if |ps| == 1 {
      SegmentsOfRun(ps[0]);
    } else {
      SegmentsJoin(ps[1..]);
      SegmentsAppend(ps[0], Join(ps[1..]));
      SegmentsOfRun(ps[0]);
    }
  }

  // ---------------------------------------------------------------------
  // Properties of the registered paths
  // ---------------------------------------------------------------------

  /** Dropping empty strings distributes over concatenation. */
  lemma {:induction false} NonEmptyAppend(xs: seq<string>, ys: seq<string>)
    ensures NonEmpty(xs + ys) == NonEmpty(xs) + NonEmpty(ys)
  {
    if |xs| > 0 {
      assert (xs + ys)[1..] == xs[1..] + ys;
      NonEmptyAppend(xs[1..], ys);
    } else {
      assert xs + ys == ys;
    }
  }

  /** Dropping empty strings neither invents nor reorders: it keeps a subset of the pieces. */
  lemma {:induction false} NonEmptyKeeps(ps: seq<string>)
    ensures forall i :: 0 <= i < |NonEmpty(ps)| ==> NonEmpty(ps)[i] != ""
    ensures AllDelimiterFree(ps) ==> AllPaths(NonEmpty(ps))
    ensures forall p :: p in NonEmpty(ps) ==> p in ps
  {
    if |ps| > 0 {
      NonEmptyKeeps(ps[1..]);
    }
  }

  /** Every path passed to AddPath occurs as a segment of the input. */
  lemma RegisteredArePaths(includePath: string)
    ensures forall p :: p in Registered(includePath) ==> p in Segments(includePath)
  {
    NonEmptyKeeps(Segments(includePath));
  }

  /** The paths of two delimiter-separated halves are registered one half after the other. */
  lemma RegisteredAppend(a: string, b: string)
    ensures Registered(a + [Delimiter] + b) == Registered(a) + Registered(b)
  {
    SegmentsAppend(a, b);
    NonEmptyAppend(Segments(a), Segments(b));
  }

  /** Empty segments before, after or between paths register nothing. */
  lemma EmptySegmentsIgnored(a: string, b: string)
    ensures Registered([Delimiter] + b) == Registered(b)
    ensures Registered(a + [Delimiter]) == Registered(a)
    ensures Registered(a + [Delimiter, Delimiter] + b) == Registered(a + [Delimiter] + b)
  {
    assert Registered("") == [];
    RegisteredAppend("", b);
    assert "" + [Delimiter] + b == [Delimiter] + b;
    RegisteredAppend(a, "");
    assert a + [Delimiter] + "" == a + [Delimiter];
    RegisteredAppend(a, [Delimiter] + b);
    assert a + [Delimiter] + ([Delimiter] + b) == a + [Delimiter, Delimiter] + b;
    RegisteredAppend(a, b);
  }

  /** An empty INCLUDE_PATH registers nothing; one path without a delimiter registers exactly itself. */
  lemma RegisteredSingle(s: string)
    ensures s == "" ==> Registered(s) == []
    ensures s != "" && Delimiter !in s ==> Registered(s) == [s]
  {
    if Delimiter !in s {
      SegmentsOfRun(s);
    }
  }

  /** Joining legal paths and splitting again registers exactly those paths, in order. */
  lemma RegisteredJoin(ps: seq<string>)
    requires AllPaths(ps)
    ensures Registered(Join(ps)) == ps
  {
    if |ps| == 0 {
      assert Registered("") == [];
    } else {
      SegmentsJoin(ps);
      NonEmptyOfPaths(ps);
    }
  }

  /** A value without empty segments is given back by joining its registered paths. */
  lemma JoinRegisteredClean(t: string)
    requires "" !in Segments(t)
    ensures Join(Registered(t)) == t
  {
    SegmentsDelimiterFree(t);
    NonEmptyOfPaths(Segments(t));
    JoinSegments(t);
  }

  /**
   * Joining the registered paths gives the value with its empty segments
   * removed: that text splits into exactly the registered paths and
   * registers them again.
   */
  lemma JoinRegisteredNormal(s: string)
    requires Registered(s) != []
    ensures Segments(Join(Registered(s))) == Registered(s)
    ensures Registered(Join(Registered(s))) == Registered(s)
  {
    RegisteredArePaths(s);
    SegmentsJoin(Registered(s));
    RegisteredJoin(Registered(s));
  }

  /** A list of legal paths has no empty string to drop. */
  lemma {:induction false} NonEmptyOfPaths(ps: seq<string>)
    requires AllPaths(ps)
    ensures NonEmpty(ps) == ps
  {
    if |ps| > 0 {
      NonEmptyOfPaths(ps[1..]);
    }
  }

  /** Deleting delimiters from a join leaves the pieces written back to back. */
  lemma {:induction false} StripAppend(a: string, b: string)
    ensures Strip(a + b) == Strip(a) + Strip(b)
    decreases |a|
  {
    if |a| == 0 {
      assert a + b == b;
    } else {
      assert (a + b)[1..] == a[1..] + b;
      StripAppend(a[1..], b);
    }
  }

  /** A delimiter-free string is unchanged by deleting delimiters. */
  lemma {:induction false} StripRun(p: string)
    requires Delimiter !in p
    ensures Strip(p) == p
    decreases |p|
  {
    if |p| > 0 {
      assert Delimiter !in p[1..] by {
        forall j | 0 <= j < |p[1..]| ensures p[1..][j] != Delimiter {
          assert p[1..][j] == p[j + 1];
          assert p[j + 1] in p;
        }
      }
      StripRun(p[1..]);
      assert p == [p[0]] + p[1..];
    }
  }

  /** Deleting the delimiters of a join of delimiter-free pieces gives their concatenation. */
  lemma {:induction false} StripJoin(ps: seq<string>)
    requires AllDelimiterFree(ps)
    ensures Strip(Join(ps)) == Concat(ps)
  {
    if |ps| == 1 {
      StripRun(ps[0]);
      assert Concat(ps) == ps[0] + Concat([]);
    } else if |ps| > 1 {
      StripJoin(ps[1..]);
      StripAppend(ps[0] + [Delimiter], Join(ps[1..]));
      StripAppend(ps[0], [Delimiter]);
      StripRun(ps[0]);
      assert Strip([Delimiter]) == "";
    }
  }

  /** Empty strings contribute nothing to a concatenation. */
  lemma {:induction false} ConcatNonEmpty(ps: seq<string>)
    ensures Concat(NonEmpty(ps)) == Concat(ps)
  {
    if |ps| > 0 {
      ConcatNonEmpty(ps[1..]);
    }
  }

  /**
   * Content and order are kept: the registered paths, written back to back,
   * are exactly the input's non-delimiter characters in their original order.
   */
  lemma RegisteredContent(includePath: string)
    ensures Concat(Registered(includePath)) == Strip(includePath)
  {
    SegmentsDelimiterFree(includePath);
    ConcatNonEmpty(Segments(includePath));
    StripJoin(Segments(includePath));
    JoinSegments(includePath);
  }

  // ---------------------------------------------------------------------
  // The header-search options and the registration loop
  // ---------------------------------------------------------------------

  /** The include-directory groups of the front end; the tool registers only System ones. */
  datatype IncludeDirGroup = Quoted | Angled | System | After

  /** One registered include directory, with the arguments AddPath was given. */
  datatype Entry = Entry(path: string, group: IncludeDirGroup, isFramework: bool, ignoreSysRoot: bool)

  /** The entries the tool adds for the given paths: system, not framework, sysroot not ignored. */
  function SystemEntries(paths: seq<string>): seq<Entry>
  {
    if |paths| == 0 then []
    else SystemEntries(paths[..|paths| - 1]) + [Entry(paths[|paths| - 1], System, false, false)]
  }

  /** Entry `i` is the system, non-framework, sysroot-respecting entry for path `i`. */
  lemma {:induction false} SystemEntriesAt(paths: seq<string>)
    ensures |SystemEntries(paths)| == |paths|
    ensures forall i :: 0 <= i < |paths| ==> SystemEntries(paths)[i] == Entry(paths[i], System, false, false)
  {
    if |paths| > 0 {
      var init := paths[..|paths| - 1];
      SystemEntriesAt(init);
      assert forall i :: 0 <= i < |init| ==> init[i] == paths[i];
    }
  }

  /** The front end's header-search options, reduced to the user entries AddPath appends to. */
  class HeaderSearchOptions {
    var userEntries: seq<Entry>

    constructor ()
      ensures userEntries == []
    {
      userEntries := [];
    }

    method AddPath(path: string, group: IncludeDirGroup, isFramework: bool, ignoreSysRoot: bool)
      modifies this
      ensures userEntries == old(userEntries) + [Entry(path, group, isFramework, ignoreSysRoot)]
    {
      userEntries := userEntries + [Entry(path, group, isFramework, ignoreSysRoot)];
    }
  }

  /**
   * The registration loop. `rest` is the text from the iterator's current
   * token on: each step takes the token up to the next delimiter, adds it as
   * a system include directory when it is not empty, and moves past the
   * delimiter. The iterator ends when no text follows the last delimiter,
   * so a trailing empty remainder yields no token.
   */
  method AddIncludePaths(includePath: string, opts: HeaderSearchOptions)
    modifies opts
    ensures opts.userEntries == old(opts.userEntries) + SystemEntries(Registered(includePath))
  {
    if includePath == "" {
      RegisteredSingle(includePath);
      assert old(opts.userEntries) + SystemEntries([]) == old(opts.userEntries);
      return;
    }
    ghost var added: seq<string> := [];
    var rest := includePath;
    while rest != ""
      invariant opts.userEntries == old(opts.userEntries) + SystemEntries(added)
      invariant Registered(includePath) == added + Registered(rest)
      decreases |rest|
    {
      var k := DelimiterIndex(rest);
      var token := rest[..k];
      var after := if k < |rest| then rest[k + 1..] else "";
      ghost var next := added + Kept(token);
      RegisteredStep(rest);
      SeqAssoc(added, Kept(token), Registered(after));
      assert Registered(includePath) == next + Registered(after);
      if k != 0 {
        opts.AddPath(token, System, false, false);
        SystemEntriesSnoc(added, token);
      } else {
        assert next == added;
      }
      added, rest := next, after;
    }
    RegisteredSingle("");
    assert added == Registered(includePath);
  }

  /** One step of the token iterator: the token before the first delimiter is registered before the rest. */
  lemma RegisteredStep(s: string)
    ensures var k := DelimiterIndex(s);
      var rest := if k < |s| then s[k + 1..] else "";
      Registered(s) == Kept(s[..k]) + Registered(rest)
  {
    var k := DelimiterIndex(s);
    var token := s[..k];
    var rest := if k < |s| then s[k + 1..] else "";
    if k < |s| {
      NonEmptyAppend([token], Segments(rest));
    } else {
      assert token == s;
      RegisteredSingle("");
      assert Registered(s) == Kept(token) + Registered(rest);
    }
  }

  /** Concatenation is associative. */
  lemma SeqAssoc<T>(a: seq<T>, b: seq<T>, c: seq<T>)
    ensures a + b + c == a + (b + c)
  {
  }

  /** Registering one more path appends one more entry. */
  lemma SystemEntriesSnoc(paths: seq<string>, p: string)
    ensures SystemEntries(paths + [p]) == SystemEntries(paths) + [Entry(p, System, false, false)]
  {
    assert (paths + [p])[..|paths|] == paths;
  }
}
