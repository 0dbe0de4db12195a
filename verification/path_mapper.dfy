/**
 * The path mapper: `keyToLocalPath(key, prefix, destRoot)` turns an object key into the
 * local path the object is written to. The prefix is removed when it matches, leading
 * slashes are stripped, the rest is split on `/` and the empty pieces are dropped; the
 * remaining segments are joined onto the destination root. The join itself (`path.join`)
 * is kept abstract: a local path is the root together with its segments.
 */
module PathMapper {

  /** `path.join(root, ...segments)`, before any platform normalisation. */
  datatype LocalPath = LocalPath(root: string, segments: seq<string>)

  /** `s.startsWith(p)`. */
  predicate StartsWith(s: string, p: string)
  {
    |p| <= |s| && s[..|p|] == p
  }

  /** A string made only of `/` characters. */
  predicate AllSlashes(s: string)
  {
    forall i :: 0 <= i < |s| ==> s[i] == '/'
  }

  /** A well-formed path segment: non-empty and free of separators. */
  predicate IsSegment(s: string)
  {
    s != [] && '/' !in s
  }

  /**
   * The part of the key below the prefix: the prefix is removed only when it is non-empty
   * and the key starts with it; otherwise the whole key is used, silently.
   */
  function RelativePart(key: string, prefix: string): (rel: string)
    ensures if prefix != [] && StartsWith(key, prefix) then prefix + rel == key else rel == key
  {
    if prefix != [] && StartsWith(key, prefix) then key[|prefix|..] else key
  }

  /**
   * `s.replace(...)` with the leading-slash pattern: the suffix of `s` left after its maximal run of leading
   * slashes. The three clauses determine the result: it is a suffix, it does not start
   * with `/`, and everything removed was a slash.
   */
  function StripLeadingSlashes(s: string): (r: string)
    ensures |r| <= |s| && r == s[|s| - |r|..]
    ensures r == [] || r[0] != '/'
    ensures forall i :: 0 <= i < |s| - |r| ==> s[i] == '/'
  {
    if s != [] && s[0] == '/' then StripLeadingSlashes(s[1..]) else s
  }

  /**
   * `s.split("/")`: the pieces between consecutive separators, from left to right. There
   * is always at least one piece (the empty string splits into one empty piece).
   */
  function Split(s: string): (parts: seq<string>)
    ensures |parts| >= 1
    ensures forall i :: 0 <= i < |parts| ==> '/' !in parts[i]
  {
    if s == [] then [[]]
    else
      var rest := Split(s[1..]);
      if s[0] == '/' then [[]] + rest
      else [[s[0]] + rest[0]] + rest[1..]
  }

  /** `parts.join("/")`, the inverse of `Split`. */
  function JoinSlash(parts: seq<string>): string
    requires |parts| >= 1
  {
    if |parts| == 1 then parts[0] else parts[0] + "/" + JoinSlash(parts[1..])
  }

  /** `parts.filter(Boolean)`: the non-empty pieces, in their original order. */
  function NonEmpty(parts: seq<string>): (r: seq<string>)
    ensures |r| <= |parts|
    ensures forall i :: 0 <= i < |r| ==> r[i] != []
    ensures forall p :: p in r <==> p in parts && p != []
  {
    if parts == [] then []
    else (if parts[0] != [] then [parts[0]] else []) + NonEmpty(parts[1..])
  }

  /**
   * `keyToLocalPath(key, prefix, destRoot)`: the destination root followed by the
   * non-empty `/`-separated pieces of the key below the prefix. No segment is empty and
   * no segment contains a separator.
   */
  function KeyToLocalPath(key: string, prefix: string, destRoot: string): (p: LocalPath)
    ensures p.root == destRoot
    ensures forall i :: 0 <= i < |p.segments| ==> IsSegment(p.segments[i])
  {
    var parts := Split(StripLeadingSlashes(RelativePart(key, prefix)));
    var segments := NonEmpty(parts);
    assert forall i :: 0 <= i < |segments| ==> segments[i] in parts;
    LocalPath(destRoot, segments)
  }

  // ---------------------------------------------------------------------------------
  // Leading-slash stripping

  /** Stripping twice is stripping once. */
  lemma StripIdempotent(s: string)
    ensures StripLeadingSlashes(StripLeadingSlashes(s)) == StripLeadingSlashes(s)
  {
  }

  /**
   * The stripped string is determined uniquely: whatever follows a run of slashes and
   * does not itself start with a slash is what stripping returns.
   */
  lemma {:induction false} StripAfterSlashes(slashes: string, t: string)
    requires AllSlashes(slashes)
    requires t == [] || t[0] != '/'
    ensures StripLeadingSlashes(slashes + t) == t
  {
    var s := slashes + t;
    if slashes == [] {
      assert s == t;
    } else {
      assert s[0] == slashes[0] == '/';
      assert s[1..] == slashes[1..] + t;
      assert AllSlashes(slashes[1..]) by {
        forall i | 0 <= i < |slashes| - 1
          ensures slashes[1..][i] == '/'
        {
          assert slashes[1..][i] == slashes[i + 1];
        }
      }
      StripAfterSlashes(slashes[1..], t);
      assert StripLeadingSlashes(s) == StripLeadingSlashes(s[1..]);
    }
  }

  // ---------------------------------------------------------------------------------
  // Split and join are inverse

  /** Joining the pieces of a split gives back the string. */
  lemma {:induction false} JoinSplit(s: string)
    ensures JoinSlash(Split(s)) == s
  {
    if s != [] {
      var rest := Split(s[1..]);
      JoinSplit(s[1..]);
      if s[0] == '/' {
        assert Split(s) == [[]] + rest;
        assert Split(s)[1..] == rest;
        assert s == [] + "/" + s[1..];
      } else {
        var first := [s[0]] + rest[0];
        assert Split(s) == [first] + rest[1..];
        if |rest| == 1 {
          assert JoinSlash(Split(s)) == first;
          assert s == [s[0]] + s[1..];
        } else {
          assert Split(s)[1..] == rest[1..];
          assert JoinSlash(rest) == rest[0] + "/" + JoinSlash(rest[1..]);
          assert s == [s[0]] + s[1..];
        }
      }
    }
  }

  /** A separator-free word glues onto the first piece of whatever follows it. */
  lemma {:induction false} SplitAfterWord(w: string, t: string)
    requires '/' !in w
    ensures Split(w + t) == [w + Split(t)[0]] + Split(t)[1..]
  {
    if w != [] {
      assert w[0] in w;
      assert (w + t)[0] == w[0];
      assert (w + t)[1..] == w[1..] + t;
      assert forall c :: c in w[1..] ==> c in w;
      SplitAfterWord(w[1..], t);
      var rest := Split(w[1..] + t);
      assert rest[0] == w[1..] + Split(t)[0];
      assert rest[1..] == Split(t)[1..];
      assert [w[0]] + rest[0] == w + Split(t)[0];
    } else {
      assert w + t == t;
      assert w + Split(t)[0] == Split(t)[0];
      assert Split(t) == [Split(t)[0]] + Split(t)[1..];
    }
  }

  /** Splitting the join of separator-free pieces gives back the pieces. */
  lemma {:induction false} SplitJoin(parts: seq<string>)
    requires |parts| >= 1
    requires forall i :: 0 <= i < |parts| ==> '/' !in parts[i]
    ensures Split(JoinSlash(parts)) == parts
  {
    if |parts| == 1 {
      SplitAfterWord(parts[0], []);
      assert parts[0] + [] == parts[0];
    } else {
      var t := JoinSlash(parts[1..]);
      SplitJoin(parts[1..]);
      assert JoinSlash(parts) == parts[0] + ("/" + t);
      SplitAfterWord(parts[0], "/" + t);
      assert ("/" + t)[1..] == t;
      assert Split("/" + t) == [[]] + Split(t);
      assert parts[0] + [] == parts[0];
      assert parts == [parts[0]] + parts[1..];
    }
  }

  // ---------------------------------------------------------------------------------
  // Filtering empty pieces

  /** Pieces that are all non-empty pass the filter unchanged. */
  lemma {:induction false} NonEmptyKeepsSegments(parts: seq<string>)
    requires forall i :: 0 <= i < |parts| ==> parts[i] != []
    ensures NonEmpty(parts) == parts
  {
    if parts != [] {
      NonEmptyKeepsSegments(parts[1..]);
      assert parts == [parts[0]] + parts[1..];
    }
  }

  /** A single piece is kept exactly when it is non-empty. */
  lemma NonEmptySingle(p: string)
    ensures NonEmpty([p]) == (if p != [] then [p] else [])
  {
    assert [p][1..] == [];
  }

  /**
   * The filter works piece by piece: filtering a concatenation is concatenating the
   * filtered parts. With `NonEmptySingle` this fixes the order and the number of times
   * each non-empty piece is kept.
   */
  lemma {:induction false} NonEmptyAppend(a: seq<string>, b: seq<string>)
    ensures NonEmpty(a + b) == NonEmpty(a) + NonEmpty(b)
  {
    if a == [] {
      assert a + b == b;
    } else {
      assert (a + b)[0] == a[0];
      assert (a + b)[1..] == a[1..] + b;
      NonEmptyAppend(a[1..], b);
    }
  }

  /** An empty piece anywhere, as made by repeated or trailing slashes, is dropped. */
  lemma NonEmptyDropsEmpty(a: seq<string>, b: seq<string>)
    ensures NonEmpty(a + [[]] + b) == NonEmpty(a + b)
  {
    NonEmptyAppend(a + [[]], b);
    NonEmptyAppend(a, [[]]);
    NonEmptySingle([]);
    NonEmptyAppend(a, b);
  }

  /**
   * Leading slashes only produce empty pieces, which the filter drops anyway: the
   * segments do not depend on whether the leading slashes were stripped first.
   */
  lemma {:induction false} StripDoesNotChangeSegments(s: string)
    ensures NonEmpty(Split(StripLeadingSlashes(s))) == NonEmpty(Split(s))
  {
    if s != [] && s[0] == '/' {
      assert StripLeadingSlashes(s) == StripLeadingSlashes(s[1..]);
      StripDoesNotChangeSegments(s[1..]);
      var parts := Split(s);
      assert parts == [[]] + Split(s[1..]);
      assert parts[0] == [] && parts[1..] == Split(s[1..]);
      assert NonEmpty(parts) == [] + NonEmpty(parts[1..]);
    }
  }

  // ---------------------------------------------------------------------------------
  // The path shape of keyToLocalPath

  /**
   * A key made of a matching, non-empty prefix followed by separator-free, non-empty
   * segments maps to exactly those segments under the destination root.
   */
  lemma KeyUnderPrefix(prefix: string, segments: seq<string>, destRoot: string)
    requires prefix != []
    requires |segments| >= 1
    requires forall i :: 0 <= i < |segments| ==> IsSegment(segments[i])
    ensures KeyToLocalPath(prefix + JoinSlash(segments), prefix, destRoot) == LocalPath(destRoot, segments)
  {
    var joined := JoinSlash(segments);
    var key := prefix + joined;
    assert key[..|prefix|] == prefix;
    assert key[|prefix|..] == joined;
    SplitJoin(segments);
    JoinSplitHead(segments);
    StripAfterSlashes([], joined);
    NonEmptyKeepsSegments(segments);
  }

  /**
   * With an empty prefix, a key made of leading slashes followed by separator-free,
   * non-empty segments maps to exactly those segments.
   */
  lemma KeyWithSlashes(slashes: string, segments: seq<string>, destRoot: string)
    requires AllSlashes(slashes)
    requires |segments| >= 1
    requires forall i :: 0 <= i < |segments| ==> IsSegment(segments[i])
    ensures KeyToLocalPath(slashes + JoinSlash(segments), [], destRoot) == LocalPath(destRoot, segments)
  {
    var joined := JoinSlash(segments);
    SplitJoin(segments);
    JoinSplitHead(segments);
    StripAfterSlashes(slashes, joined);
    NonEmptyKeepsSegments(segments);
  }

  /** The join of segments starts with the first segment, so not with a separator. */
  lemma JoinSplitHead(segments: seq<string>)
    requires |segments| >= 1
    requires forall i :: 0 <= i < |segments| ==> IsSegment(segments[i])
    ensures JoinSlash(segments) != [] && JoinSlash(segments)[0] != '/'
  {
    var w := segments[0];
    assert w[0] in w;
    if |segments| > 1 {
      assert JoinSlash(segments) == w + "/" + JoinSlash(segments[1..]);
    }
  }

  /**
   * The fallback: when the prefix is empty or does not match, the key is mapped exactly
   * as if there were no prefix at all.
   */
  lemma NonMatchingPrefix(key: string, prefix: string, destRoot: string)
    requires prefix == [] || !StartsWith(key, prefix)
    ensures KeyToLocalPath(key, prefix, destRoot) == KeyToLocalPath(key, [], destRoot)
  {
  }

  /**
   * The segments are those of the key below the prefix with any leading slashes left in
   * place: stripping them first changes nothing.
   */
  lemma SegmentsOfRelativePart(key: string, prefix: string, destRoot: string)
    ensures KeyToLocalPath(key, prefix, destRoot).segments == NonEmpty(Split(RelativePart(key, prefix)))
  {
    StripDoesNotChangeSegments(RelativePart(key, prefix));
  }

  /**
   * A key and the same key with a leading slash map to the same local path, so two
   * listed keys can be written to one file.
   */
  lemma LeadingSlashCollides(key: string, destRoot: string)
    ensures KeyToLocalPath("/" + key, "", destRoot) == KeyToLocalPath(key, "", destRoot)
  {
    assert ("/" + key)[1..] == key;
    assert StripLeadingSlashes("/" + key) == StripLeadingSlashes(key);
  }

  /**
   * `.` and `..` pieces are kept as segments: `../x` maps to the segments `[.., x]`, which
   * `path.join` then resolves to a file outside the destination root.
   */
  lemma ExampleDotDotKept()
    ensures KeyToLocalPath("../x", "", "/d") == LocalPath("/d", ["..", "x"])
  {
    var segments := ["..", "x"];
    assert segments[1..] == ["x"];
    assert JoinSlash(segments) == "../x";
    assert AllSlashes("");
    assert forall i :: 0 <= i < |segments| ==> IsSegment(segments[i]);
    KeyWithSlashes("", segments, "/d");
  }

  /** `a//b/`: the empty pieces of a repeated and of a trailing slash are dropped. */
  lemma ExampleRepeatedSlashes()
    ensures KeyToLocalPath("a//b/", "", "/d") == LocalPath("/d", ["a", "b"])
  {
    SegmentsOfRelativePart("a//b/", "", "/d");
    SplitRepeatedSlashes();
    FilterRepeatedSlashes();
  }

  lemma FilterRepeatedSlashes()
    ensures NonEmpty(["a", "", "b", ""]) == ["a", "b"]
  {
    NonEmptyDropsEmpty(["a"], ["b", ""]);
    NonEmptyDropsEmpty(["a", "b"], []);
    assert ["a", "", "b", ""] == ["a"] + [[]] + ["b", ""];
    assert ["a"] + ["b", ""] == ["a", "b"] + [[]] + [];
    assert ["a", "b"] + [] == ["a", "b"];
    NonEmptyKeepsSegments(["a", "b"]);
  }

  lemma SplitRepeatedSlashes()
    ensures Split("a//b/") == ["a", "", "b", ""]
  {
    var parts := ["a", "", "b", ""];
    assert parts[1..] == ["", "b", ""] && parts[1..][1..] == ["b", ""] && parts[1..][1..][1..] == [""];
    assert JoinSlash(["b", ""]) == "b/";
    assert JoinSlash(["", "b", ""]) == "/b/";
    assert JoinSlash(parts) == "a//b/";
    SplitJoin(parts);
  }

  /** `some/path/to/file.txt` under prefix `some/path/` goes to `<dest>/to/file.txt`. */
  lemma ExamplePrefixRemoved()
    ensures KeyToLocalPath("some/path/to/file.txt", "some/path/", "/tmp/dest")
         == LocalPath("/tmp/dest", ["to", "file.txt"])
  {
    assert JoinSlash(["to", "file.txt"]) == "to/file.txt";
    assert "some/path/" + "to/file.txt" == "some/path/to/file.txt";
    KeyUnderPrefix("some/path/", ["to", "file.txt"], "/tmp/dest");
  }

  /** `/leading/slash/file.txt` with an empty prefix goes to `<dest>/leading/slash/file.txt`. */
  lemma ExampleLeadingSlash()
    ensures KeyToLocalPath("/leading/slash/file.txt", "", "/tmp/dest2")
         == LocalPath("/tmp/dest2", ["leading", "slash", "file.txt"])
  {
    var segments := ["leading", "slash", "file.txt"];
    JoinExample();
    assert AllSlashes("/");
    assert forall i :: 0 <= i < |segments| ==> IsSegment(segments[i]);
    KeyWithSlashes("/", segments, "/tmp/dest2");
  }

  lemma JoinExample()
    ensures "/" + JoinSlash(["leading", "slash", "file.txt"]) == "/leading/slash/file.txt"
  {
    var tail := ["slash", "file.txt"];
    assert tail[1..] == ["file.txt"];
    assert JoinSlash(tail) == "slash/file.txt";
    assert ["leading", "slash", "file.txt"][1..] == tail;
  }
}
