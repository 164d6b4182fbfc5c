/** The two pieces of list and text logic on the applications page: the
    clipping of long job descriptions and the removal of a deleted
    application from the list shown. */
module HomePage {
  import opened Collections

  /** Characters a description gets per line it may fill. */
  const CharsPerLine := 100

  /** Lines a description may fill when the caller does not say. */
  const DefaultMaxLines := 4

  const Ellipsis := "..."

  function Clamp(i: int, n: nat): (c: nat)
    ensures c <= n
  {
    if i < 0 then 0 else if i > n then n else i
  }

  /** `text.substring(start, end)`: both positions clamped to the string,
      and swapped when the end comes first. */
  function Substring(text: string, start: int, end: int): (r: string)
    ensures 0 <= start <= end <= |text| ==> r == text[start..end]
    ensures 0 <= end <= start <= |text| ==> r == text[end..start]
    ensures start <= 0 && |text| <= end ==> r == text
    ensures |r| <= |text|
    ensures var lo, hi := if start <= end then start else end, if start <= end then end else start;
      r == text[Clamp(lo, |text|)..Clamp(hi, |text|)]
  {
    var a, b := Clamp(start, |text|), Clamp(end, |text|);
    if a <= b then text[a..b] else text[b..a]
  }

  /** `truncateText`: a description longer than `100 * maxLines` characters
      is cut to that many and followed by an ellipsis. A `char` stands for
      one UTF-16 code unit. */
  function TruncateText(text: string, maxLines: int := DefaultMaxLines): (r: string)
    ensures var limit := CharsPerLine * maxLines;
      && (|text| <= limit ==> r == text)
      && (|text| > limit ==>
            var kept := if limit < 0 then 0 else limit;
            && |r| == kept + |Ellipsis|
            && r[..kept] == text[..kept]
            && r[kept..] == Ellipsis)
  {
    var lineLimit := CharsPerLine * maxLines;
    if |text| > lineLimit then Substring(text, 0, lineLimit) + Ellipsis else text
  }

  /** The result is never more than three characters over the limit (none
      under zero), and reaches that length exactly when it was clipped. */
  lemma TruncateLength(text: string, maxLines: int)
    ensures var limit := CharsPerLine * maxLines;
      var kept := if limit < 0 then 0 else limit;
      var r := TruncateText(text, maxLines);
      && |r| <= kept + 3
      && (|r| == kept + 3 <==> |text| > limit)
  {
  }

  /** Clipping a clipped description changes nothing. */
  lemma TruncateIdempotent(text: string, maxLines: int)
    ensures TruncateText(TruncateText(text, maxLines), maxLines) == TruncateText(text, maxLines)
  {
    var limit := CharsPerLine * maxLines;
    var r := TruncateText(text, maxLines);
    if |text| > limit {
      var kept := if limit < 0 then 0 else limit;
      var rr := TruncateText(r, maxLines);
      assert |r| > limit;
      assert rr[..kept] == r[..kept];
      assert rr == rr[..kept] + rr[kept..];
      assert r == r[..kept] + r[kept..];
    }
  }

  /** With the default of four lines, descriptions are clipped at 400 characters. */
  lemma DefaultLimitIsFourHundred(text: string)
    ensures |text| <= 400 ==> TruncateText(text) == text
    ensures |text| > 400 ==> TruncateText(text) == text[..400] + "..."
  {
    if |text| > 400 {
      var r := TruncateText(text);
      assert r == r[..400] + r[400..];
    }
  }

  /** An application as the applications endpoint returns it. */
  datatype Application = Application(id: string, company: string, job: string, jobDetails: string, deadline: string)

  function IdOf(a: Application): string {
    a.id
  }

  /** `applications.filter((app) => app._id !== applicationId)`. */
  function WithoutId(apps: seq<Application>, id: string): (r: seq<Application>)
    ensures forall a :: a in r ==> a.id != id
    ensures forall a :: multiset(r)[a] == if a.id == id then 0 else multiset(apps)[a]
    ensures IsSubsequence(r, apps)
  {
    if apps == [] then []
    else
      var rest := WithoutId(apps[1..], id);
      assert apps == [apps[0]] + apps[1..];
      if apps[0].id != id then [apps[0]] + rest else rest
  }

  /** The filter drops exactly as many applications as carry the id. */
  lemma {:induction false} WithoutIdLength(apps: seq<Application>, id: string)
    ensures |WithoutId(apps, id)| == |apps| - multiset(Map(IdOf, apps))[id]
  {
    if apps != [] {
      WithoutIdLength(apps[1..], id);
      assert Map(IdOf, apps) == [apps[0].id] + Map(IdOf, apps[1..]);
    }
  }

  /** The list `handleDeleteApplication` leaves shown: filtered once the
      server has accepted the delete, untouched when the request failed. */
  function AfterDelete(apps: seq<Application>, id: string, serverAccepted: bool): (r: seq<Application>)
    ensures serverAccepted ==> forall a :: a in r <==> a in apps && a.id != id
    ensures serverAccepted ==> forall a :: multiset(r)[a] == if a.id == id then 0 else multiset(apps)[a]
    ensures serverAccepted ==> IsSubsequence(r, apps)
    ensures !serverAccepted ==> r == apps
  {
    if serverAccepted then WithoutId(apps, id) else apps
  }

  /** Deleting an id no application carries leaves the list as it was. */
  lemma {:induction false} WithoutAbsentId(apps: seq<Application>, id: string)
    requires forall i :: 0 <= i < |apps| ==> apps[i].id != id
    ensures WithoutId(apps, id) == apps
  {
    if apps != [] {
      WithoutAbsentId(apps[1..], id);
      assert apps == [apps[0]] + apps[1..];
    }
  }

  /** Deleting the same id twice is the same as deleting it once. */
  lemma WithoutIdIdempotent(apps: seq<Application>, id: string)
    ensures WithoutId(WithoutId(apps, id), id) == WithoutId(apps, id)
  {
    var r := WithoutId(apps, id);
    assert forall i :: 0 <= i < |r| ==> r[i] in r;
    WithoutAbsentId(r, id);
  }
}
