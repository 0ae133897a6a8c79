/** The postal-code search box: input trimming and validation, the lookup
    request, and how each outcome of the lookup sets the box's state. The
    lookup (fetch plus JSON decoding) and `parseFloat` are oracles. */
module ZipCodeSearch {
  import opened Wrappers

  /** ECMAScript white space and line terminators, which `trim` removes. */
  predicate IsJsWhitespace(c: char) {
    var n := c as int;
    || 0x09 <= n <= 0x0D || n == 0x20 || n == 0xA0 || n == 0x1680
    || 0x2000 <= n <= 0x200A || n == 0x2028 || n == 0x2029 || n == 0x202F
    || n == 0x205F || n == 0x3000 || n == 0xFEFF
  }

  function TrimStart(s: string): (r: string)
    ensures |r| <= |s| && r == s[|s| - |r|..]
    ensures r == [] || !IsJsWhitespace(r[0])
    ensures forall k :: 0 <= k < |s| - |r| ==> IsJsWhitespace(s[k])
  {
    if s != [] && IsJsWhitespace(s[0]) then TrimStart(s[1..]) else s
  }

  function TrimEnd(s: string): (r: string)
    ensures |r| <= |s| && r == s[..|r|]
    ensures r == [] || !IsJsWhitespace(r[|r| - 1])
    ensures forall k :: |r| <= k < |s| ==> IsJsWhitespace(s[k])
  {
    if s != [] && IsJsWhitespace(s[|s| - 1]) then TrimEnd(s[..|s| - 1]) else s
  }

  /** `String.prototype.trim`: white space removed from both ends. */
  function Trim(s: string): (r: string)
    ensures |r| <= |s|
    ensures r == [] || (!IsJsWhitespace(r[0]) && !IsJsWhitespace(r[|r| - 1]))
  {
    var front := TrimStart(s);
    var r := TrimEnd(front);
    assert r != [] ==> r[0] == front[0];
    r
  }

  /** What `trim` keeps is a slice of its input, starting after the leading
      white space, with only white space after it. */
  lemma TrimIsSlice(s: string)
    ensures var r := Trim(s); var i := |s| - |TrimStart(s)|;
      && i + |r| <= |s| && r == s[i..i + |r|]
      && (forall k :: 0 <= k < i ==> IsJsWhitespace(s[k]))
      && (forall k :: i + |r| <= k < |s| ==> IsJsWhitespace(s[k]))
  {
    var front := TrimStart(s);
    var r := TrimEnd(front);
    var i := |s| - |front|;
    assert front == s[i..];
    assert r == front[..|r|];
    assert s[i..][..|r|] == s[i..i + |r|];
    TrailingWhitespace(s, front, r);
  }

  /** The white space `TrimEnd` drops from a suffix of `s` is white space of `s`. */
  lemma TrailingWhitespace(s: string, front: string, r: string)
    requires |front| <= |s| && front == s[|s| - |front|..]
    requires |r| <= |front| && forall k :: |r| <= k < |front| ==> IsJsWhitespace(front[k])
    ensures forall k :: |s| - |front| + |r| <= k < |s| ==> IsJsWhitespace(s[k])
  {
    var i := |s| - |front|;
    forall k | i + |r| <= k < |s|
      ensures IsJsWhitespace(s[k])
    {
      assert s[k] == front[k - i];
    }
  }

  /** `/^\d{5}$/`: exactly five ASCII digits. */
  predicate IsFiveDigitZip(s: string) {
    |s| == 5 && forall i :: 0 <= i < 5 ==> '0' <= s[i] <= '9'
  }

  /** Leading white space is dropped up to the first other character. */
  lemma {:induction false} TrimStartDrops(pre: string, rest: string)
    requires forall k :: 0 <= k < |pre| ==> IsJsWhitespace(pre[k])
    requires rest == [] || !IsJsWhitespace(rest[0])
    ensures TrimStart(pre + rest) == rest
  {
    if pre == [] {
      assert pre + rest == rest;
    } else {
      assert (pre + rest)[0] == pre[0];
      assert (pre + rest)[1..] == pre[1..] + rest;
      TrimStartDrops(pre[1..], rest);
    }
  }

  /** Trailing white space is dropped back to the last other character. */
  lemma {:induction false} TrimEndDrops(rest: string, post: string)
    requires forall k :: 0 <= k < |post| ==> IsJsWhitespace(post[k])
    requires rest == [] || !IsJsWhitespace(rest[|rest| - 1])
    ensures TrimEnd(rest + post) == rest
  {
    if post == [] {
      assert rest + post == rest;
    } else {
      var s := rest + post;
      assert s[|s| - 1] == post[|post| - 1];
      assert s[..|s| - 1] == rest + post[..|post| - 1];
      TrimEndDrops(rest, post[..|post| - 1]);
    }
  }

  /** Surrounding white space does not matter: a valid code padded with any
      white space is still accepted, and is what gets looked up. */
  lemma PaddedZipAccepted(pre: string, zip: string, post: string)
    requires forall k :: 0 <= k < |pre| ==> IsJsWhitespace(pre[k])
    requires forall k :: 0 <= k < |post| ==> IsJsWhitespace(post[k])
    requires IsFiveDigitZip(zip)
    ensures Trim(pre + zip + post) == zip
    ensures IsFiveDigitZip(Trim(pre + zip + post))
  {
    assert !IsJsWhitespace(zip[0]) && !IsJsWhitespace(zip[4]);
    assert pre + zip + post == pre + (zip + post);
    assert (zip + post)[0] == zip[0];
    TrimStartDrops(pre, zip + post);
    TrimEndDrops(zip, post);
  }

  /** Four digits are refused. */
  lemma ShortZipRefused()
    ensures !IsFiveDigitZip(Trim("1000"))
  {
    var s := "1000";
    assert !IsJsWhitespace(s[0]) && !IsJsWhitespace(s[3]);
    assert TrimStart(s) == s;
    assert TrimEnd(s) == s;
  }

  /** Inner white space is kept, so the code is refused. */
  lemma InnerSpaceRefused()
    ensures !IsFiveDigitZip(Trim("10 001"))
  {
    var s := "10 001";
    assert !IsJsWhitespace(s[0]) && !IsJsWhitespace(s[5]);
    assert TrimStart(s) == s;
    assert TrimEnd(s) == s;
    assert s[2] == ' ';
  }

  const InvalidZipMessage := "Enter a valid 5-digit zip code"
  const NotFoundMessage := "Zip code not found"
  const SearchFailedMessage := "Search failed. Try again."

  /** The lookup URL for a validated code. */
  function SearchUrl(zip: string): string {
    "https://nominatim.openstreetmap.org/search?postalcode=" + zip + "&country=USA&format=json&limit=1"
  }

  /** One place of the geocoder's answer. */
  datatype Place = Place(lat: string, lon: string, displayName: string)

  /** The outcome of fetching a URL and decoding its JSON: a response that is
      not ok, a thrown error (network or decoding), or the decoded list. */
  datatype Response = NotOk | Threw | Places(results: seq<Place>)

  /** The arguments of one `onLocationFound` call (`None` for NaN). */
  datatype Location = Location(lat: Option<real>, lng: Option<real>)

  /** What the answer to a lookup leaves behind: the input text, the error
      shown and the `onLocationFound` call made, if any. */
  datatype Outcome = Outcome(zipCode: string, error: Option<string>, located: Option<Location>)

  /** How the answer to a lookup of `zipCode` sets the box, `error` being the
      error shown when the answer arrives. A location is reported exactly when
      a place was found, and then the input is cleared and the error left as
      it was; otherwise the input stays and exactly one of the two error
      messages is shown, "not found" only for an empty answer. */
  function LookupOutcome(zipCode: string, error: Option<string>, response: Response, parseFloat: string -> Option<real>): (o: Outcome)
    ensures o.located.Some? <==> response.Places? && response.results != []
    ensures o.located.Some? ==>
      && o.located.value == Location(parseFloat(response.results[0].lat), parseFloat(response.results[0].lon))
      && o.zipCode == "" && o.error == error
    ensures o.located.None? ==> o.zipCode == zipCode && o.error.Some?
    ensures o.located.None? ==> (o.error == Some(NotFoundMessage) <==> response == Places([]))
    ensures o.located.None? ==> (o.error == Some(SearchFailedMessage) <==> response.NotOk? || response.Threw?)
  {
    match response
    case NotOk => Outcome(zipCode, Some(SearchFailedMessage), None)
    case Threw => Outcome(zipCode, Some(SearchFailedMessage), None)
    case Places(results) =>
      if |results| == 0 then Outcome(zipCode, Some(NotFoundMessage), None)
      else Outcome("", error, Some(Location(parseFloat(results[0].lat), parseFloat(results[0].lon))))
  }

  /** The request a search of `zipCode` makes: the lookup URL of the trimmed
      code when it is five digits, none otherwise. */
  function SearchRequest(zipCode: string): (request: Option<string>)
    ensures request.Some? <==> IsFiveDigitZip(Trim(zipCode))
    ensures request.Some? ==> request.value == SearchUrl(Trim(zipCode))
  {
    var zip := Trim(zipCode);
    if IsFiveDigitZip(zip) then Some(SearchUrl(zip)) else None
  }

  /** The component's state cells. */
  class SearchBox {
    var zipCode: string
    var isLoading: bool
    var error: Option<string>

    constructor ()
      ensures zipCode == "" && !isLoading && error == None
    {
      zipCode := "";
      isLoading := false;
      error := None;
    }

    /** The input's `onChange`: store the text and clear the error. */
    method HandleInput(value: string)
      modifies this
      ensures zipCode == value && error == None && isLoading == old(isLoading)
    {
      zipCode := value;
      error := None;
    }

    /** The Go button is disabled while loading or while the trimmed text is empty. */
    predicate SearchDisabled()
      reads this
    {
      isLoading || Trim(zipCode) == ""
    }

    /** `handleSearch` up to its first `await`. An invalid code only sets the
        error; a valid one starts loading, clears the error and yields the
        URL to fetch. The input itself is kept. */
    method BeginSearch() returns (request: Option<string>)
      modifies this
      ensures request == SearchRequest(old(zipCode))
      ensures zipCode == old(zipCode)
      ensures request.None? ==> error == Some(InvalidZipMessage) && isLoading == old(isLoading)
      ensures request.Some? ==> isLoading && error == None
    {
      var trimmedZip := Trim(zipCode);
      if !IsFiveDigitZip(trimmedZip) {
        error := Some(InvalidZipMessage);
        return None;
      }
      isLoading := true;
      error := None;
      request := Some(SearchUrl(trimmedZip));
    }

    /** `handleSearch` after the lookup settles: the answer sets the input
        and the error, and the `finally` block ends loading. */
    method FinishSearch(response: Response, parseFloat: string -> Option<real>)
      returns (located: Option<Location>)
      modifies this
      ensures Outcome(zipCode, error, located) == LookupOutcome(old(zipCode), old(error), response, parseFloat)
      ensures !isLoading
    {
      located := None;
      match response {
        case NotOk =>
          error := Some(SearchFailedMessage);
        case Threw =>
          error := Some(SearchFailedMessage);
        case Places(results) =>
          if |results| == 0 {
            error := Some(NotFoundMessage);
          } else {
            located := Some(Location(parseFloat(results[0].lat), parseFloat(results[0].lon)));
            zipCode := "";
          }
      }
      isLoading := false;
    }

    /** `handleSearch` run to completion with no other handler in between:
        `request` is the URL fetched, `located` the `onLocationFound` call. */
    method HandleSearch(fetch: string -> Response, parseFloat: string -> Option<real>)
      returns (request: Option<string>, located: Option<Location>)
      modifies this
      ensures request == SearchRequest(old(zipCode))
      ensures request.None? ==>
        && located == None && error == Some(InvalidZipMessage)
        && zipCode == old(zipCode) && isLoading == old(isLoading)
      ensures request.Some? ==>
        && Outcome(zipCode, error, located) == LookupOutcome(old(zipCode), None, fetch(request.value), parseFloat)
        && !isLoading
    {
      request := BeginSearch();
      if request.None? {
        return request, None;
      }
      located := FinishSearch(fetch(request.value), parseFloat);
    }

    /** `handleKeyDown`: Enter searches unless a search is already loading;
        any other key, or Enter while loading, changes nothing. */
    method HandleKeyDown(key: string, fetch: string -> Response, parseFloat: string -> Option<real>)
      returns (request: Option<string>, located: Option<Location>)
      modifies this
      ensures !(key == "Enter" && !old(isLoading)) ==>
        request == None && located == None && unchanged(this)
      ensures key == "Enter" && !old(isLoading) ==> request == SearchRequest(old(zipCode))
      ensures key == "Enter" && !old(isLoading) && request.None? ==>
        && located == None && error == Some(InvalidZipMessage)
        && zipCode == old(zipCode) && isLoading == old(isLoading)
      ensures key == "Enter" && !old(isLoading) && request.Some? ==>
        && Outcome(zipCode, error, located) == LookupOutcome(old(zipCode), None, fetch(request.value), parseFloat)
        && !isLoading
    {
      if key == "Enter" && !isLoading {
        request, located := HandleSearch(fetch, parseFloat);
      } else {
        request, located := None, None;
      }
    }
  }

  /** While a lookup is in flight, pressing Enter starts no second one and
      the Go button stays disabled. */
  method EnterWhileLoading(box: SearchBox, fetch: string -> Response, parseFloat: string -> Option<real>)
    returns (first: Option<string>, second: Option<string>)
    requires IsFiveDigitZip(Trim(box.zipCode))
    modifies box
    ensures first == Some(SearchUrl(Trim(old(box.zipCode))))
    ensures second == None && box.isLoading && box.SearchDisabled()
  {
    first := box.BeginSearch();
    var located;
    second, located := box.HandleKeyDown("Enter", fetch, parseFloat);
  }
}
