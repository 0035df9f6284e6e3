/**
  `analyzeDetectedText` of pages/test-qr-debug.tsx: what a scanner makes of the text
  in a QR code. A validation link yields the ticket id after the path, a bare
  upper-case id is taken as is, and anything else is unknown.
 */
module QrPayload {
  import opened Wrappers
  import opened Text
  import opened TicketIds

  /** The three answers: `validation_url`, `ticket_id` (no full URL) and `unknown` (no ticket id). */
  datatype Analysis =
    | ValidationLink(ticketId: string, fullUrl: string)
    | BareTicketId(ticketId: string)
    | Unknown(fullUrl: string)

  predicate NoLineTerminator(s: string) {
    forall c :: c in s ==> !IsLineTerminator(c)
  }

  /**
    `/\/api\/ticket\/validate\/(.+)$/` matches starting at `i`: the path occurs there
    and is followed by at least one character, none of them a line terminator, up
    to the end of the text.
   */
  predicate MatchesAt(text: string, i: int) {
    && OccursAt(text, ValidatePath, i)
    && i + |ValidatePath| < |text|
    && NoLineTerminator(text[i + |ValidatePath|..])
  }

  /** The leftmost position from `from` on where the validation pattern matches. */
  function FindMatch(text: string, from: nat): (r: Option<nat>)
    ensures r.Some? ==> from <= r.value && MatchesAt(text, r.value)
    ensures r.Some? ==> forall j :: from <= j < r.value ==> !MatchesAt(text, j)
    ensures r.None? <==> forall j :: from <= j ==> !MatchesAt(text, j)
    decreases |text| - from
  {
    if from >= |text| then None
    else if MatchesAt(text, from) then Some(from)
    else FindMatch(text, from + 1)
  }

  /** `/^[A-Z0-9-]+$/` */
  predicate IsBareIdShape(text: string) {
    |text| > 0 && forall c :: c in text ==> IsUpper(c) || IsDigit(c) || c == '-'
  }

  /** `analyzeDetectedText` */
  function Analyze(text: string): (r: Analysis)
    ensures r.ValidationLink? <==> exists i :: MatchesAt(text, i)
    ensures r.ValidationLink? ==>
      && r.fullUrl == text
      && exists i :: MatchesAt(text, i) && (forall j :: 0 <= j < i ==> !MatchesAt(text, j))
                     && r.ticketId == text[i + |ValidatePath|..]
    ensures r.BareTicketId? <==> (forall i :: !MatchesAt(text, i)) && IsBareIdShape(text)
    ensures r.BareTicketId? ==> r.ticketId == text
    ensures r.Unknown? ==> r.fullUrl == text
  {
    match FindMatch(text, 0)
    case Some(i) => ValidationLink(text[i + |ValidatePath|..], text)
    case None => if IsBareIdShape(text) then BareTicketId(text) else Unknown(text)
  }

  /**
    On one line, the leftmost occurrence of the path decides: when characters follow
    it, the text is a validation link whose ticket id is everything after it.
   */
  lemma OneLineLink(text: string, i: nat)
    requires NoLineTerminator(text)
    requires OccursAt(text, ValidatePath, i) && i + |ValidatePath| < |text|
    requires forall j :: 0 <= j < i ==> !OccursAt(text, ValidatePath, j)
    ensures Analyze(text) == ValidationLink(text[i + |ValidatePath|..], text)
  {
    assert forall c :: c in text[i + |ValidatePath|..] ==> c in text;
    FindMatchIsLeftmost(text, i);
  }

  // ---------------------------------------------------------------------------
  // The round trip with the URL the ticket services encode.

  /** No occurrence of the path starts inside `baseUrl` once the path is appended to it. */
  predicate SafeBase(baseUrl: string) {
    forall i :: 0 <= i < |baseUrl| ==> !OccursAt(baseUrl + ValidatePath, ValidatePath, i)
  }

  /**
    Scanning the link a ticket service encodes gives back the ticket id, provided
    the id is non-empty and on one line and the base URL is safe.
   */
  lemma AnalyzeValidationUrl(baseUrl: string, ticketId: string)
    requires SafeBase(baseUrl) && ticketId != "" && NoLineTerminator(ticketId)
    ensures Analyze(ValidationUrl(baseUrl, ticketId)) == ValidationLink(ticketId, ValidationUrl(baseUrl, ticketId))
  {
    var url := ValidationUrl(baseUrl, ticketId);
    var n, m := |baseUrl|, |ValidatePath|;
    assert url[n..n + m] == ValidatePath;
    assert url[n + m..] == ticketId;
    assert MatchesAt(url, n);
    assert url[..n + m] == baseUrl + ValidatePath;
    forall i | 0 <= i < n
      ensures !MatchesAt(url, i)
    {
      if OccursAt(url, ValidatePath, i) {
        assert url[..n + m][i..i + m] == url[i..i + m];
        assert OccursAt(baseUrl + ValidatePath, ValidatePath, i);
      }
    }
    FindMatchIsLeftmost(url, n);
  }

  lemma FindMatchIsLeftmost(text: string, i: nat)
    requires MatchesAt(text, i) && forall j :: 0 <= j < i ==> !MatchesAt(text, j)
    ensures FindMatch(text, 0) == Some(i)
  {
  }

  /** A base URL without `/api` in it is safe. */
  lemma NoApiIsSafe(baseUrl: string)
    requires !Contains(baseUrl, "/api")
    ensures SafeBase(baseUrl)
  {
    var s := baseUrl + ValidatePath;
    forall i | 0 <= i < |baseUrl|
      ensures !OccursAt(s, ValidatePath, i)
    {
      assert s[|baseUrl|..][0] == '/';
      assert i + 4 > |baseUrl| ==> s[i..i + 4][|baseUrl| - i] == s[|baseUrl|..][0];
      if OccursAt(s, ValidatePath, i) {
        assert s[i..i + 4] == s[i..i + |ValidatePath|][..4];
        assert ValidatePath[..4] == "/api";
        if i + 4 <= |baseUrl| {
          assert baseUrl[i..i + 4] == s[i..i + 4];
          assert OccursAt(baseUrl, "/api", i);
        }
      }
    }
  }

  /** The default base URL of the ticket services is safe. */
  lemma LocalhostIsSafe()
    ensures SafeBase("http://localhost:3000")
  {
    var b := "http://localhost:3000";
    forall i | 0 <= i <= |b| - 4
      ensures !OccursAt(b, "/api", i)
    {
      assert b[i..i + 4][0] == b[i] && b[i..i + 4][1] == b[i + 1];
    }
    NoApiIsSafe(b);
  }

  /**
    Not containing the path is not enough: a base URL ending in the path without its
    final `/` lets the path match one character early, and the id read back carries
    the rest of the path in front.
   */
  lemma StraddlingBase(c: char, ticketId: string)
    requires c != '/' && ticketId != "" && NoLineTerminator(ticketId)
    ensures var base := [c] + ValidatePath[..|ValidatePath| - 1];
      var url := ValidationUrl(base, ticketId);
      && !Contains(base, ValidatePath)
      && Analyze(url) == ValidationLink(ValidatePath[1..] + ticketId, url)
  {
    var m := |ValidatePath|;
    var e := ValidatePath[..m - 1];
    var base := [c] + e;
    var url := ValidationUrl(base, ticketId);
    assert !OccursAt(base, ValidatePath, 0) by {
      assert base[..m][0] == c;
    }
    assert !MatchesAt(url, 0) by {
      assert url[..m][0] == c;
    }
    ReadEarly([c], e, ValidatePath, ticketId);
    assert url[1 + m..] == ValidatePath[1..] + ticketId;
    PathOnOneLine();
    assert forall x :: x in ValidatePath[1..] ==> x in ValidatePath;
    assert MatchesAt(url, 1);
    FindMatchIsLeftmost(url, 1);
  }

  lemma PathOnOneLine()
    ensures NoLineTerminator(ValidatePath)
  {
  }

  /** When `p` ends with its own first character, `e + p` holds `p` one character early. */
  lemma ReadEarly(h: string, e: string, p: string, id: string)
    requires |p| >= 1 && e == p[..|p| - 1] && p[|p| - 1] == p[0]
    ensures var url := h + e + p + id;
      url[|h|..|h| + |p|] == p && url[|h| + |p|..] == p[1..] + id
  {
    var url := h + e + p + id;
    assert e + [p[0]] == p;
    assert url[|h|..|h| + |p|] == e + [p[0]];
    assert url[|h| + |p|..] == p[1..] + id;
  }

  // ---------------------------------------------------------------------------
  // Bare ids.

  /** A generated ticket id contains `_`, so scanned on its own it is never taken for a bare id. */
  lemma GeneratedIdNotBare(orderNumber: int, slug: string, index: nat, clock: nat, random: string)
    ensures !IsBareIdShape(TicketId(orderNumber, slug, index, clock, random))
    ensures !Analyze(TicketId(orderNumber, slug, index, clock, random)).BareTicketId?
  {
    var fields := [IntToDecimal(orderNumber), slug, NatToDecimal(index), NatToBase36(clock), random];
    var id := Join(fields, '_');
    assert id[|fields[0]|] in id;
  }

  /** Text that is neither a link nor a bare id is reported as unknown, in full. */
  lemma UnknownKeepsText(text: string)
    requires forall i :: !MatchesAt(text, i)
    requires !IsBareIdShape(text)
    ensures Analyze(text) == Unknown(text)
  {
  }
}
