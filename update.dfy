/**
 * The sync run of src/update.go: search the catalogue with random keywords
 * until a playable track that is not yet liked turns up (at most
 * MaxAttempts + 1 attempts), then add it to the library and remove it again.
 * Every reply of the catalogue is an input: per attempt, the two random draws,
 * the search reply and the library-membership reply; once, the replies to the
 * add and the remove.
 */
module Update {
  import opened Wrappers
  import opened Sequences

  /** The attempt budget as declared; the loop condition allows one attempt more. */
  const MaxAttempts := 30

  /** A search result item: its ID, the markets it is available in, and whether it is a local file. */
  datatype Item = Item(id: string, availableMarkets: seq<string>, isLocal: bool)

  /**
   * The reply to one catalogue request: none at all (a transport error), or a
   * status with the body decoded as T, None when it does not decode.
   */
  datatype Reply<T> = Unreachable | Answered(status: int, body: Option<T>)

  /** What getJSON makes of a reply: a value (None when nothing was to be decoded), an error, or a fatal status. */
  datatype Fetched<T> = Fetched(value: Option<T>) | Errored | FatalStatus(status: int)

  /**
   * getJSON: a status other than 200 ends the run; otherwise the body is
   * decoded only when there is a target to decode it into.
   */
  function GetJSON<T>(reply: Reply<T>, decode: bool): (r: Fetched<T>)
    ensures r.FatalStatus? <==> reply.Answered? && reply.status != 200
    ensures r.FatalStatus? ==> r.status == reply.status
    ensures r.Errored? <==> reply.Unreachable? || (reply.Answered? && reply.status == 200 && decode && reply.body.None?)
    ensures r.Fetched? ==> r.value == (if decode then reply.body else None)
    ensures r.Fetched? && decode ==> r.value.Some?
  {
    match reply
    case Unreachable => Errored
    case Answered(status, body) =>
      if status != 200 then FatalStatus(status)
      else if !decode then Fetched(None)
      else if body.None? then Errored
      else Fetched(body)
  }

  /**
   * The keyword index of one attempt: the draw of crypto/rand when it
   * succeeds, the draw of math/rand otherwise, each reduced into the range
   * [0, count) that the library promises.
   */
  function KeywordIndex(secure: Option<nat>, fallback: nat, count: nat): (n: nat)
    requires count > 0
    ensures n < count
    ensures secure.Some? && secure.value < count ==> n == secure.value
    ensures secure.None? && fallback < count ==> n == fallback
  {
    match secure
    case Some(v) => ModSmall(v, count); v % count
    case None => ModSmall(fallback, count); fallback % count
  }

  /**
   * The bounds of a remainder. Stated as a lemma and called in KeywordIndex,
   * whose proof otherwise exceeds the solver's budget.
   */
  lemma ModSmall(v: nat, m: nat)
    requires m > 0
    ensures v % m < m
    ensures v < m ==> v % m == v
  {
  }

  /** An item can be used: it is not a local file and is available in market (exact match). */
  predicate Playable(item: Item, market: string)
  {
    !item.isLocal && market in item.availableMarkets
  }

  function TrackUri(id: string): string
  {
    "spotify:track:" + id
  }

  /** The URIs of the playable items, in search order. */
  function Candidates(items: seq<Item>, market: string): (r: seq<string>)
    ensures |r| <= |items|
    ensures forall j | 0 <= j < |r| :: "spotify:track:" <= r[j]
  {
    if items == [] then []
    else
      var rest := Candidates(items[..|items| - 1], market);
      var last := items[|items| - 1];
      if Playable(last, market) then rest + [TrackUri(last.id)] else rest
  }

  /** The positions of the playable items among items, in increasing order. */
  function PlayableIndices(items: seq<Item>, market: string): (r: seq<nat>)
    ensures forall j | 0 <= j < |r| :: r[j] < |items| && Playable(items[r[j]], market)
    ensures forall j, k | 0 <= j < k < |r| :: r[j] < r[k]
    ensures forall i | 0 <= i < |items| && Playable(items[i], market) :: i in r
  {
    if items == [] then []
    else
      var rest := PlayableIndices(items[..|items| - 1], market);
      if Playable(items[|items| - 1], market) then rest + [|items| - 1] else rest
  }

  /** The candidates are exactly the playable items, in search order, each as its track URI. */
  lemma {:induction false} CandidatesArePlayableItems(items: seq<Item>, market: string)
    ensures var ix, uris := PlayableIndices(items, market), Candidates(items, market);
      && |uris| == |ix|
      && forall j | 0 <= j < |ix| :: uris[j] == TrackUri(items[ix[j]].id)
  {
    if items != [] {
      var init := items[..|items| - 1];
      CandidatesArePlayableItems(init, market);
      var ix := PlayableIndices(init, market);
      forall j | 0 <= j < |ix|
        ensures init[ix[j]] == items[ix[j]]
      {
      }
    }
  }

  /** Every candidate is the URI of a playable item. */
  lemma CandidateIsPlayable(items: seq<Item>, market: string, uri: string)
    requires uri in Candidates(items, market)
    ensures exists i | 0 <= i < |items| :: Playable(items[i], market) && uri == TrackUri(items[i].id)
  {
    CandidatesArePlayableItems(items, market);
    var uris := Candidates(items, market);
    var ix := PlayableIndices(items, market);
    var j :| 0 <= j < |uris| && uris[j] == uri;
    assert Playable(items[ix[j]], market);
  }

  /** The filter loop over one page of search results. */
  method FilterCandidates(items: seq<Item>, market: string) returns (uris: seq<string>)
    ensures uris == Candidates(items, market)
  {
    uris := [];
    for i := 0 to |items|
      invariant uris == Candidates(items[..i], market)
    {
      assert items[..i + 1][..i] == items[..i];
      if items[i].isLocal || market !in items[i].availableMarkets {
        continue;
      }
      uris := uris + [TrackUri(items[i].id)];
    }
    assert items[..|items|] == items;
  }

  /**
   * The choice among the candidates given the membership answers: the first
   * one answered false; none if no answer is false; and an index past the
   * candidates when the first false answer lies beyond them.
   */
  datatype Selection = Picked(index: nat, uri: string) | NoneUnliked | PastCandidates(index: nat)

  function Select(uris: seq<string>, liked: seq<bool>): (s: Selection)
    ensures s.NoneUnliked? <==> false !in liked
    ensures !s.NoneUnliked? ==> s.index < |liked| && !liked[s.index] && false !in liked[..s.index]
    ensures s.Picked? <==> !s.NoneUnliked? && s.index < |uris|
    ensures s.Picked? ==> s.uri == uris[s.index]
  {
    match IndexOf(liked, false)
    case None => NoneUnliked
    case Some(i) => if i < |uris| then Picked(i, uris[i]) else PastCandidates(i)
  }

  /** Why the run ends with log.Fatalf, or with a panic for an index past the candidates. */
  datatype Fatality =
    | BadStatus(status: int)
    | Exhausted(limit: nat)
    | AddFailed
    | RemoveFailed
    | IndexOutOfRange

  /** How Update ends: it returns nil, it returns the search call's error, or the run ends. */
  datatype Outcome = Synced(uri: string) | SearchError | Fatal(reason: Fatality)

  /** The library mutations Update issues, both on the URL carrying the track's URI. */
  datatype Mutation = Put(uri: string) | Delete(uri: string)

  /** Everything the catalogue answers during one run. */
  datatype Catalogue = Catalogue(
    termCount: nat,                              // the number of search keywords
    secureDraw: nat -> Option<nat>,              // crypto/rand per attempt; None when it fails
    fallbackDraw: nat -> nat,                    // math/rand per attempt
    search: (nat, nat) -> Reply<seq<Item>>,      // per attempt and keyword index
    library: (nat, seq<string>) -> Reply<seq<bool>>,  // per attempt and URIs asked about
    add: Reply<()>,
    remove: Reply<()>)

  datatype AttemptResult = Found(uri: string) | Missed | Stopped(outcome: Outcome)

  /** What attempt n of the search loop comes to. */
  function Attempt(c: Catalogue, market: string, n: nat): (r: AttemptResult)
    requires c.termCount > 0
    ensures r.Found? ==> r.uri != ""
  {
    var k := KeywordIndex(c.secureDraw(n), c.fallbackDraw(n), c.termCount);
    match GetJSON(c.search(n, k), true)
    case FatalStatus(status) => Stopped(Fatal(BadStatus(status)))
    case Errored => Stopped(SearchError)
    case Fetched(response) =>
      var uris := Candidates(response.value, market);
      match GetJSON(c.library(n, uris), true)
      case FatalStatus(status) => Stopped(Fatal(BadStatus(status)))
      case Errored => Missed
      case Fetched(answer) =>
        match Select(uris, answer.value)
        case NoneUnliked => Missed
        case PastCandidates(_) => Stopped(Fatal(IndexOutOfRange))
        case Picked(_, uri) => Found(uri)
  }

  /** The add-then-remove of the selected track, and the mutations it issues. */
  function Pulse(uri: string, add: Reply<()>, remove: Reply<()>): (r: (Outcome, seq<Mutation>))
    ensures r.1 == [Put(uri)] || r.1 == [Put(uri), Delete(uri)]
    ensures r.1 == [Put(uri), Delete(uri)] <==> add.Answered? && add.status == 200
    ensures r.0.Synced? <==> add.Answered? && add.status == 200 && remove.Answered? && remove.status == 200
    ensures r.0.Synced? ==> r.0.uri == uri
    ensures r.0 == Fatal(AddFailed) <==> add.Unreachable?
    ensures r.0 == Fatal(RemoveFailed) <==> add.Answered? && add.status == 200 && remove.Unreachable?
    ensures add.Answered? && add.status != 200 ==> r.0 == Fatal(BadStatus(add.status))
    ensures add.Answered? && add.status == 200 && remove.Answered? && remove.status != 200 ==>
      r.0 == Fatal(BadStatus(remove.status))
  {
    match GetJSON(add, false)
    case FatalStatus(status) => (Fatal(BadStatus(status)), [Put(uri)])
    case Errored => (Fatal(AddFailed), [Put(uri)])
    case Fetched(_) =>
      match GetJSON(remove, false)
      case FatalStatus(status) => (Fatal(BadStatus(status)), [Put(uri), Delete(uri)])
      case Errored => (Fatal(RemoveFailed), [Put(uri), Delete(uri)])
      case Fetched(_) => (Synced(uri), [Put(uri), Delete(uri)])
  }

  /**
   * Update: attempts follow each other while none finds a track, up to
   * MaxAttempts + 1 of them; a found track is added and removed; running out
   * of attempts ends the run without any mutation.
   */
  method Update(c: Catalogue, market: string) returns (outcome: Outcome, attempts: nat, mutations: seq<Mutation>)
    requires c.termCount > 0
    ensures 1 <= attempts <= MaxAttempts + 1
    ensures forall n | 1 <= n < attempts :: Attempt(c, market, n).Missed?
    ensures match Attempt(c, market, attempts)
      case Missed => attempts == MaxAttempts + 1 && outcome == Fatal(Exhausted(MaxAttempts)) && mutations == []
      case Stopped(o) => outcome == o && mutations == []
      case Found(uri) => (outcome, mutations) == Pulse(uri, c.add, c.remove)
  {
    var trackUri := "";
    attempts := 0;
    while trackUri == "" && attempts <= MaxAttempts
      invariant attempts <= MaxAttempts + 1
      invariant trackUri == ""
      invariant forall n | 1 <= n <= attempts :: Attempt(c, market, n).Missed?
    {
      attempts := attempts + 1;
      var k := KeywordIndex(c.secureDraw(attempts), c.fallbackDraw(attempts), c.termCount);
      var searched := GetJSON(c.search(attempts, k), true);
      if searched.FatalStatus? {
        return Fatal(BadStatus(searched.status)), attempts, [];
      }
      if searched.Errored? {
        return SearchError, attempts, [];
      }
      var uris := FilterCandidates(searched.value.value, market);
      var checked := GetJSON(c.library(attempts, uris), true);
      if checked.FatalStatus? {
        return Fatal(BadStatus(checked.status)), attempts, [];
      }
      if checked.Fetched? {
        var i := IndexOf(checked.value.value, false);
        if i.Some? {
          if i.value >= |uris| {
            return Fatal(IndexOutOfRange), attempts, [];
          }
          trackUri := uris[i.value];
          assert Attempt(c, market, attempts) == Found(trackUri);
          break;
        }
      }
    }
    if trackUri == "" {
      return Fatal(Exhausted(MaxAttempts)), attempts, [];
    }

    mutations := [Put(trackUri)];
    var added := GetJSON(c.add, false);
    if added.FatalStatus? {
      return Fatal(BadStatus(added.status)), attempts, mutations;
    }
    if added.Errored? {
      return Fatal(AddFailed), attempts, mutations;
    }
    mutations := [Put(trackUri), Delete(trackUri)];
    var removed := GetJSON(c.remove, false);
    if removed.FatalStatus? {
      return Fatal(BadStatus(removed.status)), attempts, mutations;
    }
    if removed.Errored? {
      return Fatal(RemoveFailed), attempts, mutations;
    }
    outcome := Synced(trackUri);
  }

  /**
   * A found track is the candidate at the first false membership answer, and
   * it is a playable item of that attempt's search results.
   */
  lemma FoundTrackIsUnlikedAndPlayable(c: Catalogue, market: string, n: nat)
    requires c.termCount > 0 && Attempt(c, market, n).Found?
    ensures var found := c.search(n, KeywordIndex(c.secureDraw(n), c.fallbackDraw(n), c.termCount));
      && found.Answered? && found.status == 200 && found.body.Some?
      && var items := found.body.value;
         var uri := Attempt(c, market, n).uri;
         var checked := c.library(n, Candidates(items, market));
         && checked.Answered? && checked.status == 200 && checked.body.Some?
         && (exists i | 0 <= i < |checked.body.value| ::
               !checked.body.value[i] && false !in checked.body.value[..i]
               && i < |Candidates(items, market)| && Candidates(items, market)[i] == uri)
         && (exists j | 0 <= j < |items| :: Playable(items[j], market) && uri == TrackUri(items[j].id))
  {
    var k := KeywordIndex(c.secureDraw(n), c.fallbackDraw(n), c.termCount);
    var items := c.search(n, k).body.value;
    var uris := Candidates(items, market);
    var s := Select(uris, c.library(n, uris).body.value);
    assert uris[s.index] == Attempt(c, market, n).uri;
    CandidateIsPlayable(items, market, Attempt(c, market, n).uri);
  }

  /**
   * Conversely, an attempt whose membership answers have their first false at
   * a candidate's position finds that candidate.
   */
  lemma FirstUnlikedIsFound(c: Catalogue, market: string, n: nat, items: seq<Item>, liked: seq<bool>, i: nat)
    requires c.termCount > 0
    requires c.search(n, KeywordIndex(c.secureDraw(n), c.fallbackDraw(n), c.termCount)) == Answered(200, Some(items))
    requires c.library(n, Candidates(items, market)) == Answered(200, Some(liked))
    requires i < |liked| && !liked[i] && false !in liked[..i] && i < |Candidates(items, market)|
    ensures Attempt(c, market, n) == Found(Candidates(items, market)[i])
  {
  }

  /** An attempt whose membership answers are all true finds nothing, and the loop goes on. */
  lemma AllLikedIsMissed(c: Catalogue, market: string, n: nat, items: seq<Item>, liked: seq<bool>)
    requires c.termCount > 0
    requires c.search(n, KeywordIndex(c.secureDraw(n), c.fallbackDraw(n), c.termCount)) == Answered(200, Some(items))
    requires c.library(n, Candidates(items, market)) == Answered(200, Some(liked))
    requires forall i | 0 <= i < |liked| :: liked[i]
    ensures Attempt(c, market, n).Missed?
  {
  }

  /** An attempt whose membership call fails, by transport or by decoding, finds nothing, and the loop goes on. */
  lemma MembershipErrorIsMissed(c: Catalogue, market: string, n: nat, items: seq<Item>)
    requires c.termCount > 0
    requires c.search(n, KeywordIndex(c.secureDraw(n), c.fallbackDraw(n), c.termCount)) == Answered(200, Some(items))
    requires c.library(n, Candidates(items, market)) in {Unreachable, Answered(200, None)}
    ensures Attempt(c, market, n).Missed?
  {
  }
}
