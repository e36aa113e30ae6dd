/**
 * Guardian.ViewModels.MainViewModel: the six domain filters (whitelist, blacklist and the four
 * optional categories), the request counters and the UrlFiltered events that UrlFilter updates,
 * the category switches that load or clear their filters, and the protection switch that starts
 * and stops the proxy.
 */
module ViewModel {
  import opened Wrappers
  import opened Domains
  import Cuckoo

  /** The UrlFiltered event argument, without its elapsed time. */
  datatype FilterResponse = FilterResponse(url: string, isBlocked: bool)

  /** The four optional block lists. */
  datatype Category = Default | Gambling | Nsfw | Trackers

  // ---------------------------------------------------------------------------------------------
  // UrlFilter's decision

  /**
   * The block lists from the i-th on, asked in order with short-circuit "or": Ok(true) at the
   * first list that reports the domain, the exception of a list asked before any reported it,
   * Ok(false) when none does.
   */
  function AnyBlockedFrom(verdicts: seq<Result<bool, DomainError>>, i: nat): Result<bool, DomainError>
    requires i <= |verdicts|
    decreases |verdicts| - i
  {
    if i == |verdicts| then Ok(false)
    else if verdicts[i] != Ok(false) then verdicts[i]
    else AnyBlockedFrom(verdicts, i + 1)
  }

  /** All the block lists, asked in order. */
  function AnyBlocked(verdicts: seq<Result<bool, DomainError>>): Result<bool, DomainError>
  {
    AnyBlockedFrom(verdicts, 0)
  }

  /**
   * The "or" of the lists from the i-th on answers Ok(false) exactly when every one of them does;
   * otherwise it answers what the first list not answering Ok(false) answers.
   */
  lemma {:induction false} AnyBlockedFromIsFirstReport(verdicts: seq<Result<bool, DomainError>>, i: nat)
    requires i <= |verdicts|
    ensures AnyBlockedFrom(verdicts, i) == Ok(false) <==> forall j :: i <= j < |verdicts| ==> verdicts[j] == Ok(false)
    ensures AnyBlockedFrom(verdicts, i) != Ok(false) ==>
      exists k :: i <= k < |verdicts| && verdicts[k] == AnyBlockedFrom(verdicts, i)
                  && forall j :: i <= j < k ==> verdicts[j] == Ok(false)
    decreases |verdicts| - i
  {
    if i < |verdicts| {
      AnyBlockedFromIsFirstReport(verdicts, i + 1);
      if verdicts[i] != Ok(false) {
        assert verdicts[i] == AnyBlockedFrom(verdicts, i);
      }
    }
  }

  /** Five lists: the first that does not answer Ok(false) decides. */
  lemma AnyBlockedOfFive(a: Result<bool, DomainError>, b: Result<bool, DomainError>, c: Result<bool, DomainError>,
                         d: Result<bool, DomainError>, e: Result<bool, DomainError>)
    ensures AnyBlocked([a, b, c, d, e])
      == if a != Ok(false) then a else if b != Ok(false) then b else if c != Ok(false) then c
         else if d != Ok(false) then d else e
  {
    var vs := [a, b, c, d, e];
    assert AnyBlockedFrom(vs, 5) == Ok(false);
    assert AnyBlockedFrom(vs, 4) == e;
    assert AnyBlockedFrom(vs, 3) == if d != Ok(false) then d else e;
    assert AnyBlockedFrom(vs, 2) == if c != Ok(false) then c else AnyBlockedFrom(vs, 3);
    assert AnyBlockedFrom(vs, 1) == if b != Ok(false) then b else AnyBlockedFrom(vs, 2);
  }

  /**
   * UrlFilter's answer (true lets the request through) from the whitelist's verdict and the block
   * lists' verdicts: the whitelist is asked first and wins; then any block list blocks.
   */
  function Decide(whitelisted: Result<bool, DomainError>, blocklisted: seq<Result<bool, DomainError>>)
    : (r: Result<bool, DomainError>)
    ensures whitelisted == Ok(true) ==> r == Ok(true)
    ensures whitelisted.Err? ==> r == whitelisted
    ensures whitelisted == Ok(false) ==> r.Ok? == AnyBlocked(blocklisted).Ok?
    ensures whitelisted == Ok(false) && AnyBlocked(blocklisted).Ok? ==> r == Ok(!AnyBlocked(blocklisted).value)
    ensures whitelisted == Ok(false) && AnyBlocked(blocklisted).Err? ==> r == AnyBlocked(blocklisted)
  {
    match whitelisted
    case Err(e) => Err(e)
    case Ok(true) => Ok(true)
    case Ok(false) =>
      match AnyBlocked(blocklisted)
      case Err(e) => Err(e)
      case Ok(blocked) => Ok(!blocked)
  }

  /** Verdicts that are all answers, no exceptions. */
  function Answers(found: seq<bool>): (r: seq<Result<bool, DomainError>>)
    ensures |r| == |found| && forall i :: 0 <= i < |found| ==> r[i] == Ok(found[i])
  {
    seq(|found|, i requires 0 <= i < |found| => Ok(found[i]))
  }

  /**
   * Without errors the answer is "whitelisted, or on no block list": a request is blocked exactly
   * when the whitelist does not report it and some block list does.
   */
  lemma DecideWithoutErrors(whitelisted: bool, blocklisted: seq<bool>)
    ensures Decide(Ok(whitelisted), Answers(blocklisted))
      == Ok(whitelisted || forall i :: 0 <= i < |blocklisted| ==> !blocklisted[i])
  {
    var verdicts := Answers(blocklisted);
    AnyBlockedFromIsFirstReport(verdicts, 0);
    if !whitelisted {
      if forall i :: 0 <= i < |blocklisted| ==> !blocklisted[i] {
        assert forall i :: 0 <= i < |verdicts| ==> verdicts[i] == Ok(false);
      } else {
        var k :| 0 <= k < |blocklisted| && blocklisted[k];
        assert verdicts[k] != Ok(false);
      }
    }
  }

  /** The number of blocking events. */
  function CountBlocked(events: seq<FilterResponse>): (n: nat)
    ensures n <= |events|
  {
    if |events| == 0 then 0
    else CountBlocked(events[..|events| - 1]) + (if events[|events| - 1].isBlocked then 1 else 0)
  }

  /** Appending one event adds one to the count exactly when it blocks. */
  lemma CountBlockedAppend(events: seq<FilterResponse>, e: FilterResponse)
    ensures CountBlocked(events + [e]) == CountBlocked(events) + (if e.isBlocked then 1 else 0)
  {
    assert (events + [e])[..|events|] == events;
  }

  /** A filter that reports nothing: never loaded, or cleared. */
  ghost predicate Empty(f: DomainFilter)
    reads f
  {
    f.filter != null ==> forall s :: !f.Listed(s)
  }

  /** An empty filter never blocks: its verdict is false or the URL's parse error. */
  lemma EmptyNeverBlocks(f: DomainFilter, url: string)
    requires Empty(f)
    ensures f.Verdict(url) != Ok(true)
  {
  }

  /** Two filters whose objects do not overlap. */
  ghost predicate Apart(a: DomainFilter, b: DomainFilter)
    reads a, b
  {
    a != b && a !in b.Repr && b !in a.Repr && a.Repr !! b.Repr
  }

  /**
   * A filter that Load gave the list: it is loaded, and when every Add stored its fingerprint,
   * every domain of the list is reported.
   */
  ghost predicate LoadedFrom(f: DomainFilter, domains: seq<string>)
    reads f, f.Repr
    requires f.Valid()
  {
    f.filter != null
    && (Cuckoo.TotalOccupied(f.filter.Contents) == |domains| ==> forall d :: d in domains ==> f.Listed(d))
  }

  // ---------------------------------------------------------------------------------------------
  // The view model

  class MainViewModel {
    const whitelist: DomainFilter
    const blacklist: DomainFilter
    const defaultFilter: DomainFilter
    const gambling: DomainFilter
    const nsfw: DomainFilter
    const trackers: DomainFilter

    var totalRequests: int
    var totalBlockedRequests: int
    var isProtectionEnabled: bool
    var useDefaultFilter: bool
    var useGamblingFilter: bool
    var useNsfwFilter: bool
    var useTrackersFilter: bool
    /** The UrlFiltered events raised so far, oldest first. */
    var events: seq<FilterResponse>
    /** proxyServer != null: the background worker owns a server that uses UrlFilter. */
    var proxyRunning: bool
    /** The system proxy settings point at the local proxy. */
    var systemProxyConfigured: bool

    /** The four optional filters, in the order UrlFilter asks them after the blacklist. */
    function CategoryFilter(c: Category): DomainFilter
    {
      match c
      case Default => defaultFilter
      case Gambling => gambling
      case Nsfw => nsfw
      case Trackers => trackers
    }

    /** The switch of a category. */
    function Using(c: Category): bool
      reads this
    {
      match c
      case Default => useDefaultFilter
      case Gambling => useGamblingFilter
      case Nsfw => useNsfwFilter
      case Trackers => useTrackersFilter
    }

    /** The six filters are valid and share no object with each other or with the view model. */
    ghost predicate FiltersOk()
      reads whitelist, whitelist.Repr, blacklist, blacklist.Repr, defaultFilter, defaultFilter.Repr,
            gambling, gambling.Repr, nsfw, nsfw.Repr, trackers, trackers.Repr
    {
      && this !in whitelist.Repr && this !in blacklist.Repr && this !in defaultFilter.Repr
      && this !in gambling.Repr && this !in nsfw.Repr && this !in trackers.Repr
      && Apart(whitelist, blacklist) && Apart(whitelist, defaultFilter) && Apart(whitelist, gambling)
      && Apart(whitelist, nsfw) && Apart(whitelist, trackers)
      && Apart(blacklist, defaultFilter) && Apart(blacklist, gambling) && Apart(blacklist, nsfw)
      && Apart(blacklist, trackers)
      && Apart(defaultFilter, gambling) && Apart(defaultFilter, nsfw) && Apart(defaultFilter, trackers)
      && Apart(gambling, nsfw) && Apart(gambling, trackers)
      && Apart(nsfw, trackers)
      && whitelist.Valid() && blacklist.Valid() && defaultFilter.Valid()
      && gambling.Valid() && nsfw.Valid() && trackers.Valid()
    }

    /** A category that is switched off reports nothing. */
    ghost predicate Switched()
      reads this, defaultFilter, gambling, nsfw, trackers
    {
      && (!useDefaultFilter ==> Empty(defaultFilter)) && (!useGamblingFilter ==> Empty(gambling))
      && (!useNsfwFilter ==> Empty(nsfw)) && (!useTrackersFilter ==> Empty(trackers))
    }

    /** The blocked counter counts the blocking events; no more events than requests. */
    ghost predicate Counted()
      reads this
    {
      0 <= totalBlockedRequests == CountBlocked(events) && |events| <= totalRequests
    }

    /** The invariant between the protection switch's steps. */
    ghost predicate Consistent()
      reads this, whitelist, whitelist.Repr, blacklist, blacklist.Repr, defaultFilter, defaultFilter.Repr,
            gambling, gambling.Repr, nsfw, nsfw.Repr, trackers, trackers.Repr
    {
      FiltersOk() && Switched() && Counted()
    }

    /** Consistent, and the proxy runs and the system proxy is set exactly while protection is on. */
    ghost predicate Valid()
      reads this, whitelist, whitelist.Repr, blacklist, blacklist.Repr, defaultFilter, defaultFilter.Repr,
            gambling, gambling.Repr, nsfw, nsfw.Repr, trackers, trackers.Repr
    {
      Consistent() && proxyRunning == isProtectionEnabled && systemProxyConfigured == isProtectionEnabled
    }

    /** What UrlFilter answers for a domain, from the filters' verdicts on it. */
    ghost function Answer(domain: string): Result<bool, DomainError>
      reads whitelist, blacklist, defaultFilter, gambling, nsfw, trackers
    {
      Decide(whitelist.Verdict(domain), BlockVerdicts(domain))
    }

    /** The block lists' verdicts on a domain, in the order UrlFilter asks them. */
    ghost function BlockVerdicts(domain: string): seq<Result<bool, DomainError>>
      reads blacklist, defaultFilter, gambling, nsfw, trackers
    {
      [blacklist.Verdict(domain), defaultFilter.Verdict(domain), gambling.Verdict(domain),
       nsfw.Verdict(domain), trackers.Verdict(domain)]
    }

    /** Until a blacklist is loaded or a category is switched on, nothing is blocked. */
    lemma NothingBlockedByDefault(domain: string)
      requires Consistent() && blacklist.filter == null
      requires !useDefaultFilter && !useGamblingFilter && !useNsfwFilter && !useTrackersFilter
      ensures Answer(domain) != Ok(false)
    {
      EmptyNeverBlocks(defaultFilter, domain);
      EmptyNeverBlocks(gambling, domain);
      EmptyNeverBlocks(nsfw, domain);
      EmptyNeverBlocks(trackers, domain);
      AnyBlockedFromIsFirstReport(BlockVerdicts(domain), 0);
    }

    /** Six new, empty filters. */
    static method NewFilters() returns (a: DomainFilter, b: DomainFilter, c: DomainFilter,
                                        d: DomainFilter, e: DomainFilter, f: DomainFilter)
      ensures fresh(a) && fresh(b) && fresh(c) && fresh(d) && fresh(e) && fresh(f)
      ensures a.Valid() && a.filter == null && a.Repr == {}
      ensures b.Valid() && b.filter == null && b.Repr == {}
      ensures c.Valid() && c.filter == null && c.Repr == {}
      ensures d.Valid() && d.filter == null && d.Repr == {}
      ensures e.Valid() && e.filter == null && e.Repr == {}
      ensures f.Valid() && f.filter == null && f.Repr == {}
      ensures a != b && a != c && a != d && a != e && a != f
      ensures b != c && b != d && b != e && b != f
      ensures c != d && c != e && c != f
      ensures d != e && d != f && e != f
    {
      a := new DomainFilter();
      b := new DomainFilter();
      c := new DomainFilter();
      d := new DomainFilter();
      e := new DomainFilter();
      f := new DomainFilter();
    }

    constructor ()
      ensures Valid()
      ensures fresh(whitelist) && fresh(blacklist) && fresh(defaultFilter)
      ensures fresh(gambling) && fresh(nsfw) && fresh(trackers)
      ensures totalRequests == 0 && totalBlockedRequests == 0 && events == []
      ensures !isProtectionEnabled && !useDefaultFilter && !useGamblingFilter && !useNsfwFilter && !useTrackersFilter
    {
      var w, bl, df, gm, ns, tr := NewFilters();
      whitelist, blacklist, defaultFilter, gambling, nsfw, trackers := w, bl, df, gm, ns, tr;
      totalRequests := 0;
      totalBlockedRequests := 0;
      isProtectionEnabled := false;
      useDefaultFilter := false;
      useGamblingFilter := false;
      useNsfwFilter := false;
      useTrackersFilter := false;
      events := [];
      proxyRunning := false;
      systemProxyConfigured := false;
    }

    /** NotifyUrlFiltered: raise UrlFiltered with the full URL and the decision. */
    method Notify(url: string, isBlocked: bool)
      modifies this
      ensures events == old(events) + [FilterResponse(url, isBlocked)]
      ensures CountBlocked(events) == old(CountBlocked(events)) + (if isBlocked then 1 else 0)
      ensures totalRequests == old(totalRequests) && totalBlockedRequests == old(totalBlockedRequests)
      ensures isProtectionEnabled == old(isProtectionEnabled) && proxyRunning == old(proxyRunning)
      ensures systemProxyConfigured == old(systemProxyConfigured)
      ensures useDefaultFilter == old(useDefaultFilter) && useGamblingFilter == old(useGamblingFilter)
      ensures useNsfwFilter == old(useNsfwFilter) && useTrackersFilter == old(useTrackersFilter)
    {
      CountBlockedAppend(events, FilterResponse(url, isBlocked));
      events := events + [FilterResponse(url, isBlocked)];
    }

    /** One operand of the short-circuit "or": the filter is asked only while the answer so far is Ok(false). */
    static method AskNext(f: DomainFilter, domain: string, sofar: Result<bool, DomainError>)
      returns (r: Result<bool, DomainError>)
      requires f.Valid()
      ensures r == if sofar != Ok(false) then sofar else f.Verdict(domain)
    {
      if sofar != Ok(false) {
        return sofar;
      }
      r := f.Contains(domain);
    }

    /** The blacklist and the four categories asked in turn, stopping at the first that reports the domain. */
    static method AskBlockLists(black: DomainFilter, def: DomainFilter, gamb: DomainFilter, adult: DomainFilter,
                                track: DomainFilter, domain: string) returns (r: Result<bool, DomainError>)
      requires black.Valid() && def.Valid() && gamb.Valid() && adult.Valid() && track.Valid()
      ensures r == if black.Verdict(domain) != Ok(false) then black.Verdict(domain)
                   else if def.Verdict(domain) != Ok(false) then def.Verdict(domain)
                   else if gamb.Verdict(domain) != Ok(false) then gamb.Verdict(domain)
                   else if adult.Verdict(domain) != Ok(false) then adult.Verdict(domain)
                   else track.Verdict(domain)
    {
      r := AskNext(black, domain, Ok(false));
      r := AskNext(def, domain, r);
      r := AskNext(gamb, domain, r);
      r := AskNext(adult, domain, r);
      r := AskNext(track, domain, r);
    }

    /**
     * UrlFilter's question to the filters: the whitelist first, then, unless it reports the
     * domain, the block lists in turn. Ok(true) lets the request through.
     */
    method Classify(domain: string) returns (allowed: Result<bool, DomainError>)
      requires FiltersOk()
      ensures allowed == Answer(domain)
    {
      var whitelisted := whitelist.Contains(domain);
      if whitelisted.Err? {
        return Err(whitelisted.error);
      }
      if whitelisted.value {
        return Ok(true);
      }
      var blocked := AskBlockLists(blacklist, defaultFilter, gambling, nsfw, trackers, domain);
      AnyBlockedOfFive(blacklist.Verdict(domain), defaultFilter.Verdict(domain), gambling.Verdict(domain),
                       nsfw.Verdict(domain), trackers.Verdict(domain));
      if blocked.Err? {
        return Err(blocked.error);
      }
      return Ok(!blocked.value);
    }

    /**
     * UrlFilter's bookkeeping for one request: it is counted; a decision (not an exception)
     * raises one UrlFiltered event for the full URL; a block is counted as blocked.
     */
    method Record(full: string, allowed: Result<bool, DomainError>)
      requires Counted()
      modifies this
      ensures Counted()
      ensures totalRequests == old(totalRequests) + 1
      ensures totalBlockedRequests == old(totalBlockedRequests) + (if allowed == Ok(false) then 1 else 0)
      ensures events == old(events) + (if allowed.Ok? then [FilterResponse(full, allowed == Ok(false))] else [])
      ensures isProtectionEnabled == old(isProtectionEnabled) && proxyRunning == old(proxyRunning)
      ensures systemProxyConfigured == old(systemProxyConfigured)
      ensures useDefaultFilter == old(useDefaultFilter) && useGamblingFilter == old(useGamblingFilter)
      ensures useNsfwFilter == old(useNsfwFilter) && useTrackersFilter == old(useTrackersFilter)
    {
      totalRequests := totalRequests + 1;
      if allowed.Ok? {
        Notify(full, !allowed.value);
        if !allowed.value {
          totalBlockedRequests := totalBlockedRequests + 1;
        }
      }
    }

    /**
     * UrlFilter: counts the request, then decides on the short URL alone: allowed when the
     * whitelist reports it, blocked (and counted) when a block list reports it, allowed otherwise;
     * each decision raises one event for the full URL. An exception from a filter propagates.
     */
    method UrlFilter(full: string, short: string) returns (allowed: Result<bool, DomainError>)
      requires Valid()
      modifies this
      ensures Valid() && allowed == Answer(short)
      ensures totalRequests == old(totalRequests) + 1
      ensures totalBlockedRequests == old(totalBlockedRequests) + (if allowed == Ok(false) then 1 else 0)
      ensures events == old(events) + (if allowed.Ok? then [FilterResponse(full, allowed == Ok(false))] else [])
      ensures isProtectionEnabled == old(isProtectionEnabled)
      ensures useDefaultFilter == old(useDefaultFilter) && useGamblingFilter == old(useGamblingFilter)
      ensures useNsfwFilter == old(useNsfwFilter) && useTrackersFilter == old(useTrackersFilter)
    {
      allowed := Classify(short);
      Record(full, allowed);
    }

    /** The generated property setters' assignment of a category switch. */
    method SetSwitch(c: Category, value: bool)
      modifies this
      ensures Using(c) == value
      ensures c != Default ==> useDefaultFilter == old(useDefaultFilter)
      ensures c != Gambling ==> useGamblingFilter == old(useGamblingFilter)
      ensures c != Nsfw ==> useNsfwFilter == old(useNsfwFilter)
      ensures c != Trackers ==> useTrackersFilter == old(useTrackersFilter)
      ensures totalRequests == old(totalRequests) && totalBlockedRequests == old(totalBlockedRequests)
      ensures events == old(events) && isProtectionEnabled == old(isProtectionEnabled)
      ensures proxyRunning == old(proxyRunning) && systemProxyConfigured == old(systemProxyConfigured)
    {
      match c
      case Default => useDefaultFilter := value;
      case Gambling => useGamblingFilter := value;
      case Nsfw => useNsfwFilter := value;
      case Trackers => useTrackersFilter := value;
    }

    /**
     * OnUseDefaultFilterChanged, OnUseGamblingFilterChanged, OnUseNfswFilterChanged and
     * OnUseTrackersFilterChanged: switched on, the category's filter is loaded with its list
     * (what FilterLoader reads); switched off, it is cleared.
     */
    method OnUseFilterChanged(c: Category, value: bool, entries: seq<string>)
      requires FiltersOk() && |entries| < 0x8000_0000
      modifies CategoryFilter(c), CategoryFilter(c).Repr
      ensures FiltersOk()
      ensures value ==> LoadedFrom(CategoryFilter(c), entries)
      ensures !value ==> Empty(CategoryFilter(c))
      ensures c != Default ==> unchanged(defaultFilter)
      ensures c != Gambling ==> unchanged(gambling)
      ensures c != Nsfw ==> unchanged(nsfw)
      ensures c != Trackers ==> unchanged(trackers)
      ensures unchanged(whitelist, blacklist)
    {
      var f := CategoryFilter(c);
      if value {
        f.Load(entries);
      } else {
        f.Clear();
      }
    }

    /**
     * Setting a category switch: nothing happens when it already has the value; otherwise the
     * switch changes and its filter is loaded or cleared. The other switches, the counters and
     * the protection state stay as they were.
     */
    method SetUseFilter(c: Category, value: bool, entries: seq<string>)
      requires Valid() && |entries| < 0x8000_0000
      modifies this, CategoryFilter(c), CategoryFilter(c).Repr
      ensures Valid()
      ensures Using(c) == value && forall other :: other != c ==> Using(other) == old(Using(other))
      ensures old(Using(c)) == value ==> unchanged(this, CategoryFilter(c))
      ensures old(Using(c)) != value && value ==> LoadedFrom(CategoryFilter(c), entries)
      ensures totalRequests == old(totalRequests) && totalBlockedRequests == old(totalBlockedRequests)
      ensures events == old(events) && isProtectionEnabled == old(isProtectionEnabled)
    {
      if Using(c) == value {
        return;
      }
      SetSwitch(c, value);
      OnUseFilterChanged(c, value, entries);
    }

    /** The blacklist file, when it exists, is read into the blacklist. */
    method LoadBlacklistFile(lines: Option<seq<string>>)
      requires FiltersOk()
      requires lines.Some? ==> |lines.value| < 0x8000_0000
      modifies blacklist
      ensures FiltersOk()
      ensures lines.Some? ==> LoadedFrom(blacklist, lines.value)
      ensures lines.None? ==> unchanged(blacklist)
      ensures unchanged(whitelist, defaultFilter, gambling, nsfw, trackers)
    {
      if lines.Some? {
        blacklist.Load(lines.value);
      }
    }

    /** The whitelist file, when it exists, is read into the whitelist. */
    method LoadWhitelistFile(lines: Option<seq<string>>)
      requires FiltersOk()
      requires lines.Some? ==> |lines.value| < 0x8000_0000
      modifies whitelist
      ensures FiltersOk()
      ensures lines.Some? ==> LoadedFrom(whitelist, lines.value)
      ensures lines.None? ==> unchanged(whitelist)
      ensures unchanged(blacklist, defaultFilter, gambling, nsfw, trackers)
    {
      if lines.Some? {
        whitelist.Load(lines.value);
      }
    }

    /**
     * Starting the background worker's proxy and pointing the system proxy at it, or restoring
     * the system proxy settings and disposing the proxy and its worker.
     */
    method SetProxy(running: bool)
      requires Consistent()
      modifies this
      ensures Consistent()
      ensures proxyRunning == running && systemProxyConfigured == running
      ensures totalRequests == old(totalRequests) && totalBlockedRequests == old(totalBlockedRequests)
      ensures events == old(events) && isProtectionEnabled == old(isProtectionEnabled)
      ensures useDefaultFilter == old(useDefaultFilter) && useGamblingFilter == old(useGamblingFilter)
      ensures useNsfwFilter == old(useNsfwFilter) && useTrackersFilter == old(useTrackersFilter)
    {
      proxyRunning := running;
      systemProxyConfigured := running;
    }

    /**
     * EnableProtection: nothing when protection is already on; otherwise the blacklist and the
     * whitelist are loaded from their files when the files exist, and the background worker
     * starts a proxy that filters with UrlFilter, and the system proxy is pointed at it.
     */
    method EnableProtection(blacklistLines: Option<seq<string>>, whitelistLines: Option<seq<string>>)
      requires Consistent()
      requires blacklistLines.Some? ==> |blacklistLines.value| < 0x8000_0000
      requires whitelistLines.Some? ==> |whitelistLines.value| < 0x8000_0000
      modifies this, blacklist, whitelist
      ensures Consistent()
      ensures old(isProtectionEnabled) ==> unchanged(this, blacklist, whitelist)
      ensures !old(isProtectionEnabled) ==> proxyRunning && systemProxyConfigured
      ensures !old(isProtectionEnabled) && blacklistLines.Some? ==> LoadedFrom(blacklist, blacklistLines.value)
      ensures !old(isProtectionEnabled) && whitelistLines.Some? ==> LoadedFrom(whitelist, whitelistLines.value)
      ensures blacklistLines.None? ==> unchanged(blacklist)
      ensures whitelistLines.None? ==> unchanged(whitelist)
      ensures isProtectionEnabled == old(isProtectionEnabled) && events == old(events)
      ensures totalRequests == old(totalRequests) && totalBlockedRequests == old(totalBlockedRequests)
      ensures forall c :: Using(c) == old(Using(c))
    {
      if isProtectionEnabled {
        return;
      }
      LoadBlacklistFile(blacklistLines);
      LoadWhitelistFile(whitelistLines);
      SetProxy(true);
    }

    /**
     * DisableProtection: nothing when protection is already off; otherwise the system proxy
     * settings are restored and the proxy and its worker are disposed.
     */
    method DisableProtection()
      requires Consistent()
      modifies this
      ensures Consistent()
      ensures old(isProtectionEnabled) ==> !proxyRunning && !systemProxyConfigured
      ensures !old(isProtectionEnabled) ==> unchanged(this)
      ensures isProtectionEnabled == old(isProtectionEnabled) && events == old(events)
      ensures totalRequests == old(totalRequests) && totalBlockedRequests == old(totalBlockedRequests)
      ensures forall c :: Using(c) == old(Using(c))
    {
      if !isProtectionEnabled {
        return;
      }
      SetProxy(false);
    }

    /** The IsProtectionEnabled property's assignment. */
    method SetProtectionEnabled(value: bool)
      requires Consistent()
      modifies this
      ensures Consistent()
      ensures isProtectionEnabled == value
      ensures proxyRunning == old(proxyRunning) && systemProxyConfigured == old(systemProxyConfigured)
      ensures totalRequests == old(totalRequests) && totalBlockedRequests == old(totalBlockedRequests)
      ensures events == old(events)
      ensures useDefaultFilter == old(useDefaultFilter) && useGamblingFilter == old(useGamblingFilter)
      ensures useNsfwFilter == old(useNsfwFilter) && useTrackersFilter == old(useTrackersFilter)
    {
      isProtectionEnabled := value;
    }

    /**
     * ToggleProtection: enables protection when it is off and disables it when it is on, then
     * flips the switch; the proxy runs exactly while the switch is on.
     */
    method ToggleProtection(blacklistLines: Option<seq<string>>, whitelistLines: Option<seq<string>>)
      requires Valid()
      requires blacklistLines.Some? ==> |blacklistLines.value| < 0x8000_0000
      requires whitelistLines.Some? ==> |whitelistLines.value| < 0x8000_0000
      modifies this, blacklist, whitelist
      ensures Valid()
      ensures isProtectionEnabled == !old(isProtectionEnabled)
      ensures old(isProtectionEnabled) ==> unchanged(blacklist, whitelist)
      ensures !old(isProtectionEnabled) && blacklistLines.Some? ==> LoadedFrom(blacklist, blacklistLines.value)
      ensures !old(isProtectionEnabled) && whitelistLines.Some? ==> LoadedFrom(whitelist, whitelistLines.value)
      ensures events == old(events)
      ensures totalRequests == old(totalRequests) && totalBlockedRequests == old(totalBlockedRequests)
      ensures forall c :: Using(c) == old(Using(c))
    {
      if isProtectionEnabled {
        DisableProtection();
      } else {
        EnableProtection(blacklistLines, whitelistLines);
      }
      SetProtectionEnabled(!isProtectionEnabled);
    }
  }
}
