/**
 * Guardian.Filters.DomainFilter: a cuckoo filter of whole domain names. A URL is reduced to its
 * domain (a fixed "www." prefix is skipped, the text ends at the first ':', '?', '#' or '/'), and
 * the label-aligned suffixes of the domain, from the top-level label up to the whole domain, are
 * probed in the filter by their UTF-16 bytes.
 */
module Domains {
  import opened Wrappers
  import opened Cuckoo
  import opened BitOps

  const MaxUrlLength: int := 2048
  const MaxDomainLength: int := 253
  const DomainLabelSeparator: char := '.'
  const DomainEndCharacters: seq<char> := [':', '?', '#', '/']

  /** The exception ParseDomain raises when the domain's end lies before its start. */
  datatype DomainError = SliceOutOfRange

  // ---------------------------------------------------------------------------------------------
  // UTF-16 bytes of a string (a char below U+10000 is one UTF-16 code unit; higher ones are
  // truncated to their low 16 bits, see README)

  /** The two little-endian bytes of one UTF-16 code unit (a char's value modulo 0x10000). */
  function CodeUnitBytes(c: char): (b: seq<byte>)
    ensures |b| == 2
  {
    var u := (c as int) % 0x1_0000;
    [(u % 256) as byte, (u / 256) as byte]
  }

  /** Encoding.Unicode.GetBytes: UTF-16 little-endian, two bytes per code unit, in order. */
  function Utf16(s: string): (b: seq<byte>)
    ensures |b| == 2 * |s|
  {
    if |s| == 0 then [] else CodeUnitBytes(s[0]) + Utf16(s[1..])
  }

  /** CastToBytes: the memory of the chars reinterpreted as bytes on a little-endian host. */
  function CastToBytes(s: string): (b: seq<byte>)
    ensures |b| == 2 * |s|
  {
    seq(2 * |s|, i requires 0 <= i < 2 * |s| => CodeUnitBytes(s[i / 2])[i % 2])
  }

  /** Reinterpreting the chars gives the bytes Load added: a loaded domain probes with the same key. */
  lemma {:induction false} CastToBytesIsUtf16(s: string)
    ensures CastToBytes(s) == Utf16(s)
  {
    if |s| > 0 {
      CastToBytesIsUtf16(s[1..]);
      var b := CastToBytes(s);
      var u := Utf16(s);
      forall i | 0 <= i < 2 * |s|
        ensures b[i] == u[i]
      {
        if i < 2 {
          assert u[i] == CodeUnitBytes(s[0])[i];
          assert i / 2 == 0 && i % 2 == i;
        } else {
          var j := i - 2;
          assert i / 2 == j / 2 + 1 && i % 2 == j % 2;
          assert u[i] == Utf16(s[1..])[j];
          assert Utf16(s[1..])[j] == CastToBytes(s[1..])[j] == CodeUnitBytes(s[1..][j / 2])[j % 2];
          assert s[1..][j / 2] == s[i / 2];
        }
      }
    }
  }

  // ---------------------------------------------------------------------------------------------
  // Parsing the domain out of a URL

  /** FindDomainStartIndex: the length of the "https://www.", "http://www." or "www." prefix, else 0. */
  function FindDomainStartIndex(url: string): (start: nat)
    ensures start <= |url|
    ensures start == 12 <==> "https://www." <= url
    ensures start == 11 <==> "http://www." <= url
    ensures start == 4 <==> "www." <= url
    ensures start == 0 <==> !("https://www." <= url || "http://www." <= url || "www." <= url)
  {
    if "https://www." <= url then
      assert url[0] == 'h' && url[4] == 's';
      12
    else if "http://www." <= url then
      assert url[0] == 'h';
      11
    else if "www." <= url then 4
    else 0
  }

  /** Span.IndexOfAny: the first position holding one of cs, or -1. */
  function IndexOfAny(s: string, cs: seq<char>): (r: int)
    ensures -1 <= r < |s|
    ensures r >= 0 ==> s[r] in cs
    ensures forall i :: 0 <= i < |s| && (r == -1 || i < r) ==> s[i] !in cs
  {
    if |s| == 0 then -1
    else if s[0] in cs then 0
    else
      var r := IndexOfAny(s[1..], cs);
      if r == -1 then -1 else r + 1
  }

  /** FindDomainEndIndex: the first ':', '?', '#' or '/' anywhere in the URL, else its length. */
  function FindDomainEndIndex(url: string): (end: nat)
    ensures end <= |url|
    ensures forall i :: 0 <= i < end ==> url[i] !in DomainEndCharacters
    ensures end < |url| ==> url[end] in DomainEndCharacters
  {
    var r := IndexOfAny(url, DomainEndCharacters);
    if r == -1 then |url| else r
  }

  /** ParseDomain: url[start..end], which throws when the end lies before the start. */
  function ParseDomain(url: string): (r: Result<string, DomainError>)
    ensures r.Err? <==> FindDomainEndIndex(url) < FindDomainStartIndex(url)
    ensures r.Ok? ==> r.value == url[FindDomainStartIndex(url)..FindDomainEndIndex(url)]
    ensures r.Ok? ==> forall c :: c in r.value ==> c !in DomainEndCharacters
  {
    var start := FindDomainStartIndex(url);
    var end := FindDomainEndIndex(url);
    if end < start then Err(SliceOutOfRange)
    else
      assert forall i :: start <= i < end ==> url[i] !in DomainEndCharacters;
      Ok(url[start..end])
  }

  /** The scheme's ':' ends the domain before "http://www." does: such URLs make ParseDomain throw. */
  lemma SchemeUrlsFailToParse(rest: string)
    ensures ParseDomain("http://www." + rest).Err?
    ensures ParseDomain("https://www." + rest).Err?
  {
    var u := "http://www." + rest;
    var v := "https://www." + rest;
    assert u[4] == ':' && v[5] == ':';
    assert FindDomainEndIndex(u) <= 4;
    assert FindDomainEndIndex(v) <= 5;
  }

  // ---------------------------------------------------------------------------------------------
  // Labels and label-aligned suffixes

  /** Span.Count: the number of occurrences of c. */
  function Count(s: string, c: char): nat
  {
    if |s| == 0 then 0 else Count(s[..|s| - 1], c) + (if s[|s| - 1] == c then 1 else 0)
  }

  lemma {:induction false} CountAbsent(s: string, c: char)
    requires c !in s
    ensures Count(s, c) == 0
  {
    if |s| > 0 {
      CountAbsent(s[..|s| - 1], c);
    }
  }

  /** CountDomainLabels: one more than the number of separators. */
  function CountDomainLabels(domain: string): nat
  {
    Count(domain, DomainLabelSeparator) + 1
  }

  /**
   * Where the suffix of domain[..j] after its k-th separator counted from the right starts; 0 when
   * domain[..j] has fewer than k separators.
   */
  function SuffixStart(domain: string, j: nat, k: nat): (p: nat)
    requires j <= |domain| && k >= 1
    ensures p <= j
    decreases j
  {
    if j == 0 then 0
    else if domain[j - 1] == DomainLabelSeparator then
      if k == 1 then j else SuffixStart(domain, j - 1, k - 1)
    else SuffixStart(domain, j - 1, k)
  }

  /** The text after the k-th separator counted from the right, or the whole domain if there are fewer. */
  function DomainSuffix(domain: string, k: nat): string
    requires k >= 1
  {
    domain[SuffixStart(domain, |domain|, k)..]
  }

  lemma {:induction false} CountAppend(s: string, t: string, c: char)
    ensures Count(s + t, c) == Count(s, c) + Count(t, c)
    decreases |t|
  {
    if |t| > 0 {
      assert (s + t)[..|s + t| - 1] == s + t[..|t| - 1];
      CountAppend(s, t[..|t| - 1], c);
    } else {
      assert s + t == s;
    }
  }

  /** Counting over domain[i..j] extends by the character at j - 1. */
  lemma CountExtend(domain: string, i: nat, j: nat, c: char)
    requires i < j <= |domain|
    ensures Count(domain[i..j], c) == Count(domain[i..j - 1], c) + (if domain[j - 1] == c then 1 else 0)
  {
    assert domain[i..j][..j - i - 1] == domain[i..j - 1];
  }

  /**
   * The suffix of domain[..j] after its k-th separator from the right: it starts at 0 when there are
   * fewer than k separators, and otherwise right after a separator, holding exactly k - 1 of them.
   */
  lemma {:induction false} SuffixStartShape(domain: string, j: nat, k: nat)
    requires j <= |domain| && k >= 1
    ensures var p := SuffixStart(domain, j, k);
      && (Count(domain[..j], DomainLabelSeparator) < k ==> p == 0)
      && (Count(domain[..j], DomainLabelSeparator) >= k ==>
            p >= 1 && domain[p - 1] == DomainLabelSeparator
            && Count(domain[p..j], DomainLabelSeparator) == k - 1)
    decreases j
  {
    if j > 0 {
      CountExtend(domain, 0, j, DomainLabelSeparator);
      assert domain[0..j] == domain[..j] && domain[0..j - 1] == domain[..j - 1];
      if domain[j - 1] == DomainLabelSeparator && k == 1 {
        assert domain[j..j] == [];
      } else {
        var k' := if domain[j - 1] == DomainLabelSeparator then k - 1 else k;
        SuffixStartShape(domain, j - 1, k');
        var p := SuffixStart(domain, j - 1, k');
        if Count(domain[..j - 1], DomainLabelSeparator) >= k' {
          CountExtend(domain, p, j, DomainLabelSeparator);
        }
      }
    } else {
      assert domain[..0] == [];
    }
  }

  /**
   * DomainSuffix(d, k) is a suffix of d; with fewer than k separators it is d itself, otherwise it
   * is preceded by a separator and holds exactly k - 1 of them.
   */
  lemma DomainSuffixShape(domain: string, k: nat)
    requires k >= 1
    ensures var s := DomainSuffix(domain, k);
      && |s| <= |domain| && s == domain[|domain| - |s|..]
      && (Count(domain, DomainLabelSeparator) < k ==> s == domain)
      && (Count(domain, DomainLabelSeparator) >= k ==>
            |s| < |domain| && domain[|domain| - |s| - 1] == DomainLabelSeparator
            && Count(s, DomainLabelSeparator) == k - 1)
  {
    SuffixStartShape(domain, |domain|, k);
    assert domain[..|domain|] == domain;
    var p := SuffixStart(domain, |domain|, k);
    assert domain[p..|domain|] == domain[p..];
  }

  /** The probe for the last label count is the whole domain; no probe is ever longer. */
  lemma LastProbeIsWholeDomain(domain: string)
    ensures DomainSuffix(domain, CountDomainLabels(domain)) == domain
  {
    DomainSuffixShape(domain, CountDomainLabels(domain));
  }

  /** BuildDomainSuffix: the backward scan counting separators down from k. */
  method BuildDomainSuffix(domain: string, labelIndex: nat) returns (suffix: string)
    requires labelIndex >= 1
    ensures suffix == DomainSuffix(domain, labelIndex)
  {
    var remaining := labelIndex;
    var i := |domain| - 1;
    while i >= 0
      invariant -1 <= i < |domain| && remaining >= 1
      invariant SuffixStart(domain, |domain|, labelIndex) == SuffixStart(domain, i + 1, remaining)
    {
      if domain[i] == DomainLabelSeparator {
        if remaining == 1 {
          return domain[i + 1..];
        }
        remaining := remaining - 1;
      }
      i := i - 1;
    }
    return domain;
  }

  /** For "otherexample.com" the probes are "com" and "otherexample.com", never "example.com". */
  lemma OtherExampleProbes()
    ensures CountDomainLabels("otherexample.com") == 2
    ensures DomainSuffix("otherexample.com", 1) == "com"
    ensures DomainSuffix("otherexample.com", 2) == "otherexample.com"
  {
    var d := "otherexample.com";
    var head, tail := "otherexample", "com";
    assert d == (head + ['.']) + tail;
    CountAbsent(head, '.');
    CountAbsent(tail, '.');
    assert Count(['.'], '.') == 1 by {
      assert ['.'][..0] == [];
    }
    CountAppend(head, ['.'], '.');
    CountAppend(head + ['.'], tail, '.');
    assert Count(d, '.') == 1;
    LastProbeIsWholeDomain(d);
    assert d[12] == '.' && d[13] == 'c' && d[14] == 'o' && d[15] == 'm';
    assert SuffixStart(d, 16, 1) == 13;
    assert d[13..] == "com";
  }


  // ---------------------------------------------------------------------------------------------
  // The filter

  class DomainFilter {
    /** null until the first Load. */
    var filter: CuckooFilter?
    /** The strings whose UTF-16 bytes the loaded filter reports. */
    ghost var Listing: iset<string>
    ghost var Repr: set<object>

    ghost predicate Valid()
      reads this, Repr
    {
      filter != null ==>
        && filter in Repr && filter.buckets in Repr && filter.Repr <= Repr
        && filter.Valid()
        && forall s {:trigger filter.Member(Utf16(s))} :: s in Listing <==> filter.Member(Utf16(s))
    }

    constructor ()
      ensures Valid() && filter == null && Repr == {} && Listing == iset{}
    {
      filter := null;
      Listing := iset{};
      Repr := {};
    }

    /** Whether the loaded filter reports the UTF-16 bytes of s. */
    ghost predicate Listed(s: string)
      reads this
    {
      s in Listing
    }

    /** Listed is what the cuckoo filter reports. */
    lemma ListedIsMember(s: string)
      requires Valid() && filter != null
      ensures Listed(s) == filter.Member(Utf16(s))
    {
    }

    /** What Contains(url) reports, or the error it raises. */
    ghost function Verdict(url: string): Result<bool, DomainError>
      reads this
    {
      if filter == null || |url| > MaxUrlLength then Ok(false)
      else match ParseDomain(url)
        case Err(e) => Err(e)
        case Ok(domain) =>
          if |domain| > MaxDomainLength then Ok(false)
          else Ok(exists k :: 1 <= k <= CountDomainLabels(domain) && Listed(DomainSuffix(domain, k)))
    }

    /**
     * Load: a fresh filter sized for the domains (default bucket size, fingerprint width and kick
     * limit), to which every domain's UTF-16 bytes are added; what Add returns is ignored.
     */
    method Load(domains: seq<string>)
      requires Valid() && |domains| < 0x8000_0000
      modifies this
      ensures Valid() && filter != null && fresh(Repr)
      ensures filter.bucketSize == DefaultBucketSize as nat && filter.maxKicks == DefaultMaxKicks
      ensures filter.fingerprintMask == 0xfff
      ensures filter.bucketCount >= BucketTarget(|domains|, DefaultBucketSize)
      ensures TotalOccupied(filter.Contents) <= |domains|
      ensures TotalOccupied(filter.Contents) == |domains| ==> forall d :: d in domains ==> Listed(d)
    {
      var f, listing := Build(domains);
      filter := f;
      Listing := listing;
      Repr := {f, f.buckets} + f.Repr;
    }

    /** Load's new filter, and the strings it reports. */
    static method Build(domains: seq<string>) returns (f: CuckooFilter, ghost listing: iset<string>)
      requires |domains| < 0x8000_0000
      ensures f.Valid() && fresh(f) && fresh(f.buckets) && fresh(f.Repr)
      ensures f.bucketSize == DefaultBucketSize as nat && f.maxKicks == DefaultMaxKicks
      ensures f.fingerprintMask == 0xfff
      ensures f.bucketCount >= BucketTarget(|domains|, DefaultBucketSize)
      ensures TotalOccupied(f.Contents) <= |domains|
      ensures TotalOccupied(f.Contents) == |domains| ==> forall d :: d in domains ==> d in listing
      ensures forall s {:trigger f.Member(Utf16(s))} :: s in listing <==> f.Member(Utf16(s))
    {
      f := new CuckooFilter(|domains|, DefaultBucketSize, DefaultFingerprintBits, DefaultMaxKicks);
      assert Pow2(12) == 0x1000;
      EmptyBucketsUnoccupied(f.Contents, f.bucketSize);
      ghost var failures := AddAll(f, domains);
      listing := iset s | f.Member(Utf16(s));
    }

    /** Load's loop: add the UTF-16 bytes of every domain; what Add returns is ignored. */
    static method AddAll(f: CuckooFilter, domains: seq<string>) returns (ghost failures: nat)
      requires f.Valid()
      modifies f, f.Repr
      ensures f.Valid()
      ensures failures <= |domains|
      ensures TotalOccupied(f.Contents) == old(TotalOccupied(f.Contents)) + |domains| - failures
      ensures failures == 0 ==> forall d :: d in domains ==> f.Member(Utf16(d))
    {
      ghost var keys := seq(|domains|, j requires 0 <= j < |domains| => Utf16(domains[j]));
      failures := 0;
      for i := 0 to |domains|
        invariant f.Valid()
        invariant failures <= i
        invariant TotalOccupied(f.Contents) == old(TotalOccupied(f.Contents)) + i - failures
        invariant failures == 0 ==> forall j :: 0 <= j < i ==> f.Member(keys[j])
      {
        var key := Utf16(domains[i]);
        failures := AddKey(f, key, keys, i, failures);
      }
      forall d | d in domains && failures == 0
        ensures f.Member(Utf16(d))
      {
        var j :| 0 <= j < |domains| && domains[j] == d;
        assert keys[j] == Utf16(d);
      }
    }

    /** One round of Load's loop: add the i-th key; a failed Add is counted, not reported. */
    static method AddKey(f: CuckooFilter, key: seq<byte>, ghost keys: seq<seq<byte>>, i: nat, ghost failures: nat)
      returns (ghost failures': nat)
      requires f.Valid() && i < |keys| && keys[i] == key
      requires failures == 0 ==> forall j :: 0 <= j < i ==> f.Member(keys[j])
      modifies f, f.Repr
      ensures f.Valid()
      ensures failures' == 0 ==> forall j :: 0 <= j < i + 1 ==> f.Member(keys[j])
      ensures TotalOccupied(f.Contents) == old(TotalOccupied(f.Contents)) + 1 - (failures' - failures)
      ensures failures <= failures' <= failures + 1
    {
      var added := f.Add(key);
      failures' := if added then failures else failures + 1;
    }

    /** Clear: empties the loaded filter in place (nothing happens before the first Load). */
    method Clear()
      requires Valid()
      modifies this, Repr
      ensures Valid() && filter == old(filter) && Repr == old(Repr)
      ensures filter != null ==> TotalOccupied(filter.Contents) == 0
      ensures filter != null ==> forall s :: !Listed(s)
    {
      if filter != null {
        filter.Clear();
        Listing := iset{};
      }
    }

    /** Contains' loop: probe every label-aligned suffix, from the top-level label to the whole domain. */
    static method ProbeSuffixes(f: CuckooFilter, domain: string) returns (found: bool)
      requires f.Valid()
      ensures found == exists k :: 1 <= k <= CountDomainLabels(domain) && f.Member(Utf16(DomainSuffix(domain, k)))
    {
      var labelCount := CountDomainLabels(domain);
      ghost var cs := f.Contents;
      for labelIndex := 1 to labelCount + 1
        invariant f.Contents == cs
        invariant forall k :: 1 <= k < labelIndex ==> !f.Holds(cs, Utf16(DomainSuffix(domain, k)))
      {
        found := Probe(f, domain, labelIndex);
        if found {
          return;
        }
      }
      return false;
    }

    /** One round of Contains' loop: whether the filter reports the suffix with labelIndex labels. */
    static method Probe(f: CuckooFilter, domain: string, labelIndex: nat) returns (found: bool)
      requires f.Valid() && labelIndex >= 1
      ensures found == f.Member(Utf16(DomainSuffix(domain, labelIndex)))
    {
      var suffix := BuildDomainSuffix(domain, labelIndex);
      found := f.Contains(CastToBytes(suffix));
      CastToBytesIsUtf16(suffix);
    }

    /** Contains: probe every label-aligned suffix, from the top-level label to the whole domain. */
    method Contains(url: string) returns (r: Result<bool, DomainError>)
      requires Valid()
      ensures r == Verdict(url)
    {
      if filter == null || |url| > MaxUrlLength {
        return Ok(false);
      }
      var parsed := ParseDomain(url);
      if parsed.Err? {
        return Err(parsed.error);
      }
      var domain := parsed.value;
      if |domain| > MaxDomainLength {
        return Ok(false);
      }
      var found := ProbeSuffixes(filter, domain);
      forall k | 1 <= k <= CountDomainLabels(domain) {
        ListedIsMember(DomainSuffix(domain, k));
      }
      return Ok(found);
    }
  }
}
