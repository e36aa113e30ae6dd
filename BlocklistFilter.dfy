/**
 * The wildcard blocklist: entries `*.d` are stored in a suffix trie keyed by the labels of d, read
 * from the top-level label inward, with a blocking flag on the node where each entry ends. A host
 * is blocked when the walk along its own labels meets a flagged node before a missing child.
 *
 * The trie is modelled by its set of paths: `nodes` maps the label path of every node (the root
 * is the empty path) to that node's IsBlocking flag. Adding a child is adding its path; clearing
 * the root's children leaves only the empty path.
 */
module Blocklist {
  import Domains
  import opened Text

  /** Entries and hosts with more labels than this are ignored. */
  const MaxDomainDepth: int := 127
  const WildcardPrefix: string := "*."
  const SchemeSeparator: string := "://"
  const PathStartCharacters: seq<char> := ['/', '?', '#']

  // ---------------------------------------------------------------------------------------------
  // Text helpers

  /** Lower-casing of one UTF-16 code unit, restricted to ASCII letters. */
  function LowerChar(c: char): (l: char)
    ensures l == '.' <==> c == '.'
    ensures 'A' <= l <= 'Z' ==> false
  {
    if 'A' <= c <= 'Z' then (c as int + 32) as char else c
  }

  /** GetPooledKey: the label lower-cased (the string pool only interns it). */
  function Lower(s: string): (r: string)
    ensures |r| == |s|
  {
    seq(|s|, i requires 0 <= i < |s| => LowerChar(s[i]))
  }

  /** Lower-casing works code unit by code unit. */
  lemma {:induction false} LowerAt(s: string)
    ensures forall i :: 0 <= i < |s| ==> Lower(s)[i] == LowerChar(s[i])
  {
    if |s| > 0 {
      LowerAt(s[1..]);
    }
  }

  /** Lower-casing twice is lower-casing once. */
  lemma LowerIdempotent(s: string)
    ensures Lower(Lower(s)) == Lower(s)
  {
    LowerAt(s);
    LowerAt(Lower(s));
  }

  /** Lower-casing commutes with slicing. */
  lemma LowerSlice(s: string, i: nat, j: nat)
    requires i <= j <= |s|
    ensures Lower(s)[i..j] == Lower(s[i..j])
  {
    LowerAt(s);
    LowerAt(s[i..j]);
  }

  // ---------------------------------------------------------------------------------------------
  // Host extraction and labels

  /** Where the authority starts: after the first "://", or at 0 when there is none. */
  function AuthorityStart(url: string): (a: nat)
    ensures a <= |url|
    ensures a == 0 ==> forall i: nat :: !MatchAt(url, SchemeSeparator, i)
    ensures a != 0 ==> a >= 3 && MatchAt(url, SchemeSeparator, a - 3)
    ensures forall i: nat :: i + 3 < a ==> !MatchAt(url, SchemeSeparator, i)
  {
    var schemeEnd := IndexOfText(url, SchemeSeparator);
    if schemeEnd >= 0 then schemeEnd + 3 else 0
  }

  /** The authority: rest up to its first '/', '?' or '#'. */
  function AuthorityOf(rest: string): (authority: string)
    ensures |authority| <= |rest| && authority == rest[..|authority|]
    ensures forall i :: 0 <= i < |authority| ==> authority[i] !in PathStartCharacters
    ensures |authority| == |rest| || rest[|authority|] in PathStartCharacters
  {
    var pathStart := Domains.IndexOfAny(rest, PathStartCharacters);
    if pathStart >= 0 then rest[..pathStart] else rest
  }

  /** The host: the authority up to its first ':', unless that ':' is its first character. */
  function StripPort(authority: string): (host: string)
    ensures |host| <= |authority| && host == authority[..|host|]
    ensures |host| > 0 && host[0] != ':' ==> ':' !in host
    ensures |host| == |authority| || authority[|host|] == ':'
    ensures ':' !in authority ==> host == authority
    ensures |authority| > 0 && authority[0] == ':' ==> host == authority
  {
    var portIndex := IndexOfChar(authority, ':');
    if portIndex > 0 then authority[..portIndex] else authority
  }

  /**
   * ExtractHost: the authority after the first "://" (or from the start), with the port cut
   * off. The host is the prefix of that text which ends at the text's end, at the first '/',
   * '?' or '#', or at the first ':' when the host does not start with one.
   */
  function ExtractHost(url: string): (host: string)
    ensures var rest := url[AuthorityStart(url)..];
      |host| <= |rest| && host == rest[..|host|]
    ensures forall i :: 0 <= i < |host| ==> host[i] !in PathStartCharacters
    ensures |host| > 0 && host[0] != ':' ==> ':' !in host
    ensures var rest := url[AuthorityStart(url)..];
      || |host| == |rest|
      || rest[|host|] in PathStartCharacters
      || (rest[|host|] == ':' && |host| > 0 && host[0] != ':')
  {
    var rest := url[AuthorityStart(url)..];
    var authority := AuthorityOf(rest);
    var host := StripPort(authority);
    assert forall i :: 0 <= i < |host| ==> host[i] == authority[i];
    host
  }

  /**
   * A URL built from a scheme, "://", a host and a tail that starts with a port or a path gives
   * that host back.
   */
  lemma ExtractHostOfUrl(scheme: string, host: string, tail: string)
    requires ':' !in scheme && |host| > 0 && ':' !in host
    requires forall i :: 0 <= i < |host| ==> host[i] !in PathStartCharacters
    requires |tail| == 0 || tail[0] == ':' || tail[0] in PathStartCharacters
    ensures ExtractHost(scheme + SchemeSeparator + host + tail) == host
  {
    var rest := host + tail;
    assert scheme + SchemeSeparator + host + tail == scheme + SchemeSeparator + rest;
    AuthorityAfterScheme(scheme, rest);
    HostOfAuthority(host, tail);
  }

  /** With no ':' in the scheme, the authority starts right after the scheme's "://". */
  lemma AuthorityAfterScheme(scheme: string, rest: string)
    requires ':' !in scheme
    ensures var url := scheme + SchemeSeparator + rest;
      AuthorityStart(url) == |scheme| + 3 && url[AuthorityStart(url)..] == rest
  {
    var url := scheme + SchemeSeparator + rest;
    assert url[|scheme|..|scheme| + 3] == SchemeSeparator;
    assert MatchAt(url, SchemeSeparator, |scheme|);
    forall i: nat | i < |scheme| ensures !MatchAt(url, SchemeSeparator, i) {
      assert url[i] == scheme[i];
    }
    assert url[|scheme| + 3..] == rest;
  }

  /** A host free of ':' and path characters, then a port, path or nothing: the host is cut out. */
  lemma HostOfAuthority(host: string, tail: string)
    requires |host| > 0 && ':' !in host
    requires forall i :: 0 <= i < |host| ==> host[i] !in PathStartCharacters
    requires |tail| == 0 || tail[0] == ':' || tail[0] in PathStartCharacters
    ensures StripPort(AuthorityOf(host + tail)) == host
  {
    var rest := host + tail;
    var authority := AuthorityOf(rest);
    assert forall i :: 0 <= i < |host| ==> rest[i] == host[i];
    assert |authority| >= |host|;
    assert |authority| > |host| ==> authority[|host|] == ':' by {
      if |authority| > |host| {
        assert rest[|host|] == tail[0];
      }
    }
    var h := StripPort(authority);
    assert |h| >= |host|;
    assert |h| <= |host|;
    assert h == host;
  }

  /** The first '.' at or after from, or |s| when there is none. */
  function NextDot(s: string, from: nat): (d: nat)
    requires from <= |s|
    ensures from <= d <= |s| && (d < |s| ==> s[d] == '.')
    decreases |s| - from
  {
    if from == |s| || s[from] == '.' then from else NextDot(s, from + 1)
  }

  /** NextDot skips no dot. */
  lemma {:induction false} NextDotIsFirst(s: string, from: nat)
    requires from <= |s|
    ensures forall j :: from <= j < NextDot(s, from) ==> s[j] != '.'
    decreases |s| - from
  {
    if from < |s| && s[from] != '.' {
      NextDotIsFirst(s, from + 1);
    }
  }

  /**
   * The labels of s[start..]: its maximal non-empty runs without '.', in order, lower-cased.
   * Leading, trailing and doubled dots give no empty label.
   */
  function LabelsFrom(s: string, start: nat): seq<string>
    requires start <= |s|
    decreases |s| - start
  {
    var dot := NextDot(s, start);
    if dot == |s| then (if start < dot then [Lower(s[start..dot])] else [])
    else if start < dot then [Lower(s[start..dot])] + LabelsFrom(s, dot + 1)
    else LabelsFrom(s, dot + 1)
  }

  function Labels(s: string): seq<string>
  {
    LabelsFrom(s, 0)
  }

  /** A label as stored in the trie: non-empty, without '.', already lower-cased. */
  predicate IsLabel(t: string)
  {
    |t| > 0 && '.' !in t && Lower(t) == t
  }

  /** The label of a run without dots. */
  lemma RunIsLabel(t: string)
    requires |t| > 0 && forall j :: 0 <= j < |t| ==> t[j] != '.'
    ensures IsLabel(Lower(t))
  {
    LowerIdempotent(t);
    LowerAt(t);
  }

  /** Every label produced by the scan is a proper label. */
  lemma {:induction false} LabelsAreLabels(s: string, start: nat)
    requires start <= |s|
    ensures forall t :: t in LabelsFrom(s, start) ==> IsLabel(t)
    decreases |s| - start
  {
    var dot := NextDot(s, start);
    if start < dot {
      NextDotIsFirst(s, start);
      RunIsLabel(s[start..dot]);
    }
    if dot < |s| {
      LabelsAreLabels(s, dot + 1);
    }
  }

  /** Lower-casing does not move the dots. */
  lemma {:induction false} NextDotIgnoresCase(s: string, from: nat)
    requires from <= |s|
    ensures NextDot(Lower(s), from) == NextDot(s, from)
    decreases |s| - from
  {
    LowerAt(s);
    if from < |s| && s[from] != '.' {
      NextDotIgnoresCase(s, from + 1);
    }
  }

  /** A run of the lower-cased string, lower-cased, is the run lower-cased. */
  lemma LowerRunIgnoresCase(s: string, i: nat, j: nat)
    requires i <= j <= |s|
    ensures Lower(Lower(s)[i..j]) == Lower(s[i..j])
  {
    LowerSlice(s, i, j);
    LowerIdempotent(s[i..j]);
  }

  /** Matching ignores case: a string and its lower-cased form have the same labels. */
  lemma {:induction false} LabelsIgnoreCase(s: string, start: nat)
    requires start <= |s|
    ensures LabelsFrom(Lower(s), start) == LabelsFrom(s, start)
    decreases |s| - start
  {
    var dot := NextDot(s, start);
    NextDotIgnoresCase(s, start);
    LowerRunIgnoresCase(s, start, dot);
    if dot < |s| {
      LabelsIgnoreCase(s, dot + 1);
    }
  }

  /** Scanning a suffix finds the dots of the whole string, shifted. */
  lemma {:induction false} NextDotOfSuffix(q: string, o: nat, r: string, k: nat)
    requires o <= |q| && q[o..] == r && k <= |r|
    ensures NextDot(q, o + k) == o + NextDot(r, k)
    decreases |r| - k
  {
    if k < |r| {
      assert q[o + k] == r[k];
      if r[k] != '.' {
        NextDotOfSuffix(q, o, r, k + 1);
      }
    }
  }

  /** A slice of a suffix is the shifted slice of the whole string. */
  lemma SliceOfSuffix(q: string, o: nat, r: string, i: nat, j: nat)
    requires o <= |q| && q[o..] == r && i <= j <= |r|
    ensures q[o + i..o + j] == r[i..j]
  {
    forall t | 0 <= t < j - i
      ensures q[o + i..o + j][t] == r[i..j][t]
    {
      assert q[o + i + t] == r[i + t];
    }
  }

  /** The labels of a suffix are the labels the scan of the whole string finds there. */
  lemma {:induction false} LabelsOfSuffix(q: string, o: nat, r: string, k: nat)
    requires o <= |q| && q[o..] == r && k <= |r|
    ensures LabelsFrom(q, o + k) == LabelsFrom(r, k)
    decreases |r| - k
  {
    var d := NextDot(r, k);
    NextDotOfSuffix(q, o, r, k);
    SliceOfSuffix(q, o, r, k, d);
    if d < |r| {
      LabelsOfSuffix(q, o, r, d + 1);
      assert o + d + 1 == o + (d + 1);
    }
  }

  /** Before the joining dot, the scan of a + "." + b finds the dots of a, then the joining one. */
  lemma {:induction false} NextDotOfJoin(a: string, b: string, k: nat)
    requires k <= |a|
    ensures NextDot(a + "." + b, k) == NextDot(a, k)
    decreases |a| - k
  {
    var s := a + "." + b;
    if k < |a| {
      assert s[k] == a[k];
      if a[k] != '.' {
        NextDotOfJoin(a, b, k + 1);
      }
    } else {
      assert s[k] == '.';
    }
  }

  /** Joining two names with a dot joins their label lists. */
  lemma {:induction false} LabelsFromJoin(a: string, b: string, k: nat)
    requires k <= |a|
    ensures LabelsFrom(a + "." + b, k) == LabelsFrom(a, k) + Labels(b)
    decreases |a| - k
  {
    var d := NextDot(a, k);
    NextDotOfJoin(a, b, k);
    if d < |a| {
      LabelsFromJoin(a, b, d + 1);
      JoinBeforeDot(a, b, k, d);
    } else {
      JoinLastRun(a, b, k);
    }
  }

  /** LabelsFromJoin where a has a dot at d, at or after k. */
  lemma JoinBeforeDot(a: string, b: string, k: nat, d: nat)
    requires k <= d < |a| && NextDot(a, k) == d && NextDot(a + "." + b, k) == d
    requires LabelsFrom(a + "." + b, d + 1) == LabelsFrom(a, d + 1) + Labels(b)
    ensures LabelsFrom(a + "." + b, k) == LabelsFrom(a, k) + Labels(b)
  {
    var s := a + "." + b;
    assert s[k..d] == a[k..d];
    if k < d {
      var run := [Lower(a[k..d])];
      assert run + (LabelsFrom(a, d + 1) + Labels(b)) == (run + LabelsFrom(a, d + 1)) + Labels(b);
    }
  }

  /** LabelsFromJoin where a has no dot at or after k: the joining dot ends its last run. */
  lemma JoinLastRun(a: string, b: string, k: nat)
    requires k <= |a| && NextDot(a, k) == |a| && NextDot(a + "." + b, k) == |a|
    ensures LabelsFrom(a + "." + b, k) == LabelsFrom(a, k) + Labels(b)
  {
    var s := a + "." + b;
    assert s[k..|a|] == a[k..|a|];
    assert s[|a| + 1..] == b;
    LabelsOfSuffix(s, |a| + 1, b, 0);
    if k == |a| {
      assert [] + Labels(b) == Labels(b);
    }
  }

  lemma LabelsOfJoin(a: string, b: string)
    ensures Labels(a + "." + b) == Labels(a) + Labels(b)
  {
    LabelsFromJoin(a, b, 0);
  }

  /**
   * One label boundary of SplitLabels: the run from start ends at the dot (or the end) at i;
   * a non-empty run becomes one lower-cased label.
   */
  method CutLabel(s: string, start: nat, i: nat) returns (head: seq<string>)
    requires start <= i <= |s| && NextDot(s, start) == i
    ensures i == |s| ==> LabelsFrom(s, start) == head
    ensures i < |s| ==> LabelsFrom(s, start) == head + LabelsFrom(s, i + 1)
  {
    head := [];
    if start < i {
      var segment := s[start..i];
      head := [Lower(segment)];
    }
  }

  /**
   * The state of SplitLabels' scan before position i: segments holds the labels cut so far, and
   * rest the labels still to come, those of the run starting at start.
   */
  ghost predicate Scanned(s: string, i: nat, start: nat, segments: seq<string>, rest: seq<string>)
  {
    && start <= i
    && Labels(s) == segments + rest
    && (start <= |s| ==> i <= |s| && rest == LabelsFrom(s, start) && NextDot(s, start) == NextDot(s, i))
    && (start > |s| ==> rest == [])
  }

  /**
   * SplitLabels: the scan of ProcessDomain and Contains. A label ends at each '.' and at the end;
   * an empty run is skipped.
   */
  method SplitLabels(s: string) returns (segments: seq<string>)
    ensures segments == Labels(s)
  {
    segments := [];
    var start: nat := 0;
    ghost var rest := LabelsFrom(s, 0);
    for i := 0 to |s| + 1
      invariant Scanned(s, i, start, segments, rest)
    {
      segments, start, rest := ScanAt(s, i, start, segments, rest);
    }
    assert segments + [] == segments;
  }

  /** One position of SplitLabels' scan: at a '.' or at the end, the run since start is cut. */
  method ScanAt(s: string, i: nat, start: nat, segments: seq<string>, ghost rest: seq<string>)
    returns (segments': seq<string>, start': nat, ghost rest': seq<string>)
    requires i <= |s| && Scanned(s, i, start, segments, rest)
    ensures Scanned(s, i + 1, start', segments', rest')
  {
    if i == |s| {
      var head := CutLabel(s, start, i);
      segments', start', rest' := segments + head, i + 1, [];
      assert segments + rest == segments' + rest';
    } else if s[i] == '.' {
      var head := CutLabel(s, start, i);
      segments', start', rest' := segments + head, i + 1, LabelsFrom(s, i + 1);
      assert segments + rest == segments' + rest';
    } else {
      assert NextDot(s, i) == NextDot(s, i + 1);
      segments', start', rest' := segments, start, rest;
    }
  }

  // ---------------------------------------------------------------------------------------------
  // Label paths

  /** The trie path of a label list: the labels from the last (top-level) one to the first. */
  function PathOf(labels: seq<string>): (p: seq<string>)
    ensures |p| == |labels| && forall k :: 0 <= k < |p| ==> p[k] == labels[|labels| - 1 - k]
  {
    seq(|labels|, k requires 0 <= k < |labels| => labels[|labels| - 1 - k])
  }

  predicate IsPrefix(p: seq<string>, q: seq<string>)
  {
    |p| <= |q| && q[..|p|] == p
  }

  /**
   * The trie's shape: the root is present and, with every node, every node on the way to it
   * (its parent, the parent's parent, ...).
   */
  predicate PrefixClosed(nodes: map<seq<string>, bool>)
  {
    && [] in nodes
    && forall q, k :: q in nodes && 0 <= k <= |q| ==> q[..k] in nodes
  }

  /**
   * after is before with the prefixes of current added, unflagged where they are new; no flag
   * changes.
   */
  ghost predicate Grown(before: map<seq<string>, bool>, after: map<seq<string>, bool>, current: seq<string>)
  {
    && (forall q :: q in after <==> q in before || IsPrefix(q, current))
    && (forall q :: q in after ==> after[q] == (q in before && before[q]))
  }

  /** One step of the insertion walk: go to the child, creating it unflagged when it is missing. */
  lemma GrowStep(before: map<seq<string>, bool>, after: map<seq<string>, bool>, current: seq<string>, key: string)
    requires Grown(before, after, current) && current in after
    ensures var child := current + [key];
      Grown(before, if child in after then after else after[child := false], child)
  {
    var child := current + [key];
    forall q | IsPrefix(q, child) && q != child
      ensures IsPrefix(q, current)
    {
      assert child[..|q|] == current[..|q|];
    }
  }

  /** Flagging the end of the walk completes the insertion. */
  lemma FlagStep(before: map<seq<string>, bool>, after: map<seq<string>, bool>, path: seq<string>)
    requires Grown(before, after, path) && path in after
    ensures InsertedInto(before, after[path := true], path)
  {
  }

  /** A node whose prefix is missing is missing. */
  lemma AbsentExtension(nodes: map<seq<string>, bool>, q: seq<string>, k: nat)
    requires PrefixClosed(nodes) && k <= |q| && q[..k] !in nodes
    ensures q !in nodes
  {
  }

  /** A path is blocked when one of its non-empty prefixes is a node flagged blocking. */
  predicate Blocked(nodes: map<seq<string>, bool>, path: seq<string>)
  {
    exists k :: 1 <= k <= |path| && path[..k] in nodes && nodes[path[..k]]
  }

  /**
   * after is before with path inserted: the missing prefixes of path are added unflagged, path
   * is flagged, and every other node keeps its flag.
   */
  ghost predicate InsertedInto(before: map<seq<string>, bool>, after: map<seq<string>, bool>, path: seq<string>)
  {
    && (forall q :: q in after <==> q in before || IsPrefix(q, path))
    && (forall q :: q in after ==> after[q] == (q == path || (q in before && before[q])))
  }

  /** Inserting a path keeps the trie prefix-closed. */
  lemma InsertKeepsShape(before: map<seq<string>, bool>, after: map<seq<string>, bool>, path: seq<string>)
    requires PrefixClosed(before) && InsertedInto(before, after, path)
    ensures PrefixClosed(after)
  {
    forall q, k | q in after && 0 <= k <= |q|
      ensures q[..k] in after
    {
      if q !in before {
        assert path[..k] == q[..k];
        assert IsPrefix(q[..k], path);
      }
    }
  }

  /** After inserting a non-empty path, exactly the paths it prefixes become blocked as well. */
  lemma InsertBlocks(before: map<seq<string>, bool>, after: map<seq<string>, bool>, path: seq<string>, x: seq<string>)
    requires InsertedInto(before, after, path) && |path| >= 1
    ensures Blocked(after, x) <==> Blocked(before, x) || IsPrefix(path, x)
  {
    if IsPrefix(path, x) {
      assert x[..|path|] == path && path in after;
    }
    if Blocked(before, x) {
      var k :| 1 <= k <= |x| && x[..k] in before && before[x[..k]];
      assert x[..k] in after;
    }
    if Blocked(after, x) {
      var k :| 1 <= k <= |x| && x[..k] in after && after[x[..k]];
      if x[..k] == path {
        assert IsPrefix(path, x);
      } else {
        assert Blocked(before, x);
      }
    }
  }

  /** A trie with the root alone blocks nothing. */
  lemma RootAloneBlocksNothing(flag: bool, x: seq<string>)
    ensures !Blocked(map[[] := flag], x)
  {
  }

  /** The path of joined label lists: the right part's path comes first (it is nearer the root). */
  lemma PathOfAppend(l1: seq<string>, l2: seq<string>)
    ensures PathOf(l1 + l2) == PathOf(l2) + PathOf(l1)
  {
  }

  /**
   * A stored entry blocks its own domain and every subdomain of it: a name whose labels end
   * with the entry's labels has a path that extends the entry's path.
   */
  lemma WildcardCoversSubdomains(before: map<seq<string>, bool>, after: map<seq<string>, bool>, entry: seq<string>, sub: seq<string>)
    requires Storable(entry) && InsertedInto(before, after, PathOf(entry))
    ensures Blocked(after, PathOf(entry))
    ensures Blocked(after, PathOf(sub + entry))
  {
    var path := PathOf(entry);
    PathOfAppend(sub, entry);
    var y := PathOf(sub + entry);
    assert y[..|path|] == path;
    InsertBlocks(before, after, path, y);
    assert path[..|path|] == path;
    InsertBlocks(before, after, path, path);
  }

  /**
   * The same on host names: once `*.d` is stored, any name `x.d` is blocked, because the labels
   * of `x.d` are those of x followed by those of d.
   */
  lemma StoredEntryCoversSubdomains(before: map<seq<string>, bool>, after: map<seq<string>, bool>, entry: string, path: seq<string>, x: string)
    requires Stores(entry, path) && InsertedInto(before, after, path)
    ensures Blocked(after, PathOf(Labels(x + "." + entry[2..])))
  {
    LabelsOfJoin(x, entry[2..]);
    WildcardCoversSubdomains(before, after, Labels(entry[2..]), Labels(x));
  }

  /** Into a trie holding the root alone, one insertion blocks exactly the extensions of its path. */
  lemma FirstInsertBlocksExtensions(flag: bool, after: map<seq<string>, bool>, path: seq<string>, y: seq<string>)
    requires |path| >= 1 && InsertedInto(map[[] := flag], after, path)
    ensures Blocked(after, y) <==> IsPrefix(path, y)
  {
    InsertBlocks(map[[] := flag], after, path, y);
    RootAloneBlocksNothing(flag, y);
  }

  /**
   * The wildcard example, on label lists: with ads.example.com loaded into an empty trie,
   * sub.ads.example.com is blocked, while example.com and notads.example.com are not.
   */
  lemma WildcardExample(after: map<seq<string>, bool>)
    requires InsertedInto(map[[] := false], after, PathOf(["ads", "example", "com"]))
    ensures Blocked(after, PathOf(["sub", "ads", "example", "com"]))
    ensures !Blocked(after, PathOf(["example", "com"]))
    ensures !Blocked(after, PathOf(["notads", "example", "com"]))
  {
    var path := PathOf(["ads", "example", "com"]);
    WildcardCoversSubdomains(map[[] := false], after, ["ads", "example", "com"], ["sub"]);
    assert ["sub"] + ["ads", "example", "com"] == ["sub", "ads", "example", "com"];
    FirstInsertBlocksExtensions(false, after, path, PathOf(["example", "com"]));
    FirstInsertBlocksExtensions(false, after, path, PathOf(["notads", "example", "com"]));
    assert path[2] == "ads" != "notads" == PathOf(["notads", "example", "com"])[2];
  }

  // ---------------------------------------------------------------------------------------------
  // Entries and URLs

  /** LoadBlocklist only reads entries of the form `*.` followed by at least one character. */
  predicate IsWildcard(entry: string)
  {
    |entry| > 2 && entry[..2] == WildcardPrefix
  }

  /** A label list the trie accepts: at least one label and at most MaxDomainDepth. */
  predicate Storable(labels: seq<string>)
  {
    1 <= |labels| <= MaxDomainDepth
  }

  /** The path an entry is stored under, when it is stored at all. */
  predicate Stores(entry: string, path: seq<string>)
  {
    IsWildcard(entry) && Storable(Labels(entry[2..])) && path == PathOf(Labels(entry[2..]))
  }

  /** The labels Contains walks for a URL. */
  function HostLabels(url: string): seq<string>
  {
    Labels(ExtractHost(url))
  }

  class BlocklistFilter {
    /** The path of every trie node, mapped to its IsBlocking flag. */
    var nodes: map<seq<string>, bool>

    ghost predicate Valid()
      reads this
    {
      PrefixClosed(nodes)
    }

    constructor ()
      ensures Valid() && nodes == map[[] := false]
    {
      nodes := map[[] := false];
    }

    /** What Contains(url) reports in the current state. */
    predicate Verdict(url: string)
      reads this
    {
      |url| > 0 && |ExtractHost(url)| > 0 && Storable(HostLabels(url))
      && Blocked(nodes, PathOf(HostLabels(url)))
    }

    /** Clear: the root loses all its children; nothing is blocked afterwards. */
    method Clear()
      requires Valid()
      modifies this
      ensures Valid() && nodes == map[[] := old(nodes)[[]]]
      ensures forall url :: !Verdict(url)
    {
      nodes := map[[] := nodes[[]]];
      forall url
        ensures !Verdict(url)
      {
        RootAloneBlocksNothing(nodes[[]], PathOf(HostLabels(url)));
      }
    }

    /**
     * ProcessDomain: split into labels; with 1 to MaxDomainDepth labels, walk from the top-level
     * label creating the missing children and flag the last node. Otherwise nothing changes.
     */
    method ProcessDomain(domain: string)
      requires Valid()
      modifies this
      ensures Valid()
      ensures Storable(Labels(domain)) ==> InsertedInto(old(nodes), nodes, PathOf(Labels(domain)))
      ensures !Storable(Labels(domain)) ==> nodes == old(nodes)
    {
      var segments := SplitLabels(domain);
      if |segments| == 0 || |segments| > MaxDomainDepth {
        return;
      }
      ghost var path := PathOf(segments);
      var current: seq<string> := [];
      var i := |segments| - 1;
      while i >= 0
        invariant -1 <= i < |segments|
        invariant current == path[..|segments| - 1 - i] && current in nodes
        invariant Grown(old(nodes), nodes, current)
      {
        var key := segments[i];
        assert path[..|segments| - i] == current + [key];
        GrowStep(old(nodes), nodes, current, key);
        current := current + [key];
        if current !in nodes {
          nodes := nodes[current := false];
        }
        i := i - 1;
      }
      assert current == path;
      FlagStep(old(nodes), nodes, path);
      nodes := nodes[current := true];
      InsertKeepsShape(old(nodes), nodes, path);
    }

    /**
     * LoadBlocklist: every wildcard entry's domain is inserted. Afterwards a path is blocked
     * exactly when it was blocked before or extends the path of a stored entry.
     */
    method LoadBlocklist(blocklist: seq<string>)
      requires Valid()
      modifies this
      ensures Valid()
      ensures forall x :: Blocked(nodes, x) <==>
        Blocked(old(nodes), x) || exists e, p :: e in blocklist && Stores(e, p) && IsPrefix(p, x)
    {
      for n := 0 to |blocklist|
        invariant Valid()
        invariant forall x :: Blocked(nodes, x) <==>
          Blocked(old(nodes), x) || exists e, p :: e in blocklist[..n] && Stores(e, p) && IsPrefix(p, x)
      {
        var entry := blocklist[n];
        assert blocklist[..n + 1] == blocklist[..n] + [entry];
        if |entry| > 2 && entry[..2] == WildcardPrefix {
          LoadEntry(entry, blocklist[..n], old(nodes));
        } else {
          assert forall p :: !Stores(entry, p);
        }
      }
      assert blocklist[..|blocklist|] == blocklist;
    }

    /** One round of LoadBlocklist's loop, for a wildcard entry. */
    method LoadEntry(entry: string, ghost done: seq<string>, ghost start: map<seq<string>, bool>)
      requires Valid() && IsWildcard(entry)
      requires forall x :: Blocked(nodes, x) <==>
        Blocked(start, x) || exists e, p :: e in done && Stores(e, p) && IsPrefix(p, x)
      modifies this
      ensures Valid()
      ensures forall x :: Blocked(nodes, x) <==>
        Blocked(start, x) || exists e, p :: e in done + [entry] && Stores(e, p) && IsPrefix(p, x)
    {
      ghost var before := nodes;
      var domain := entry[2..];
      ProcessDomain(domain);
      var labels := Labels(domain);
      forall x
        ensures Blocked(nodes, x) <==>
          Blocked(start, x) || exists e, p :: e in done + [entry] && Stores(e, p) && IsPrefix(p, x)
      {
        if Storable(labels) {
          InsertBlocks(before, nodes, PathOf(labels), x);
          if IsPrefix(PathOf(labels), x) {
            assert entry in done + [entry] && Stores(entry, PathOf(labels));
          }
        }
        if exists e, p :: e in done + [entry] && Stores(e, p) && IsPrefix(p, x) {
          var e, p :| e in done + [entry] && Stores(e, p) && IsPrefix(p, x);
          if e !in done {
            assert e == entry;
          }
        }
      }
    }

    /**
     * The walk of Contains: from the root along the path of the labels, true at the first
     * flagged node, false at the first missing child.
     */
    method Walk(segments: seq<string>) returns (found: bool)
      requires Valid()
      ensures found == Blocked(nodes, PathOf(segments))
    {
      ghost var path := PathOf(segments);
      var current: seq<string> := [];
      var i := |segments| - 1;
      while i >= 0
        invariant -1 <= i < |segments|
        invariant current == path[..|segments| - 1 - i] && current in nodes
        invariant forall k :: 1 <= k <= |current| ==> !(path[..k] in nodes && nodes[path[..k]])
      {
        var key := segments[i];
        assert path[..|segments| - i] == current + [key];
        var child := current + [key];
        if child !in nodes {
          forall k | |child| <= k <= |path|
            ensures path[..k] !in nodes
          {
            assert path[..k][..|child|] == child;
            AbsentExtension(nodes, path[..k], |child|);
          }
          return false;
        }
        if nodes[child] {
          return true;
        }
        current := child;
        i := i - 1;
      }
      assert path[..|segments|] == path;
      return false;
    }

    /** Contains: whether the URL's host is blocked. */
    method Contains(url: string) returns (found: bool)
      requires Valid()
      ensures found == Verdict(url)
    {
      if |url| == 0 {
        return false;
      }
      var host := ExtractHost(url);
      if |host| == 0 {
        return false;
      }
      var segments := SplitLabels(host);
      if |segments| == 0 || |segments| > MaxDomainDepth {
        return false;
      }
      found := Walk(segments);
    }
  }
}
