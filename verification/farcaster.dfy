/**
  The text and payloads the agent sends to Farcaster, and the shaping of the mentions it
  reads back. Every HTTP exchange is a parameter: the answer the request produced, or
  None when it threw.
*/
module Farcaster {
  import opened Wrappers
  import Decimal

  // ── String helpers with JavaScript semantics ──────────────────────

  /** `s.slice(0, end)`: a negative end counts back from the end of `s`. */
  function SliceTo(s: string, end: int): (r: string)
    ensures |r| <= |s| && r == s[..|r|]
    ensures end >= 0 ==> |r| == if end <= |s| then end else |s|
    ensures end < 0 ==> |r| == if |s| + end >= 0 then |s| + end else 0
  {
    if end >= 0 then (if end <= |s| then s[..end] else s)
    else if |s| + end >= 0 then s[..|s| + end]
    else []
  }

  /** `s.slice(start)`: a negative start counts back from the end of `s`. */
  function SliceFrom(s: string, start: int): (r: string)
    ensures |r| <= |s| && r == s[|s| - |r|..]
    ensures start >= 0 ==> |r| == if start <= |s| then |s| - start else 0
    ensures start < 0 ==> |r| == if -start <= |s| then -start else |s|
  {
    if start >= 0 then (if start <= |s| then s[start..] else [])
    else if -start <= |s| then s[|s| + start..]
    else s
  }

  /** `parts.join(sep)` */
  function Join(parts: seq<string>, sep: string): string
  {
    if |parts| == 0 then ""
    else if |parts| == 1 then parts[0]
    else Join(parts[..|parts| - 1], sep) + sep + parts[|parts| - 1]
  }

  /** Joining one more part adds the separator and that part. */
  lemma JoinSnoc(parts: seq<string>, last: string, sep: string)
    requires parts != []
    ensures Join(parts + [last], sep) == Join(parts, sep) + sep + last
  {
    assert (parts + [last])[..|parts|] == parts;
  }

  lemma JoinPair(a: string, b: string, sep: string)
    ensures Join([a, b], sep) == a + sep + b
  {
    JoinSnoc([a], b, sep);
    assert [a] + [b] == [a, b];
  }

  lemma JoinThree(a: string, b: string, c: string, sep: string)
    ensures Join([a, b, c], sep) == a + sep + b + sep + c
  {
    JoinPair(a, b, sep);
    JoinSnoc([a, b], c, sep);
    assert [a, b] + [c] == [a, b, c];
  }

  lemma JoinFour(a: string, b: string, c: string, d: string, sep: string)
    ensures Join([a, b, c, d], sep) == a + sep + b + sep + c + sep + d
  {
    JoinPair(a, b, sep);
    JoinSnoc([a, b], c, sep);
    assert [a, b] + [c] == [a, b, c];
    JoinSnoc([a, b, c], d, sep);
    assert [a, b, c] + [d] == [a, b, c, d];
  }

  lemma JoinFourEnds(first: string, third: string, last: string, sep: string)
    requires first != [] && last != []
    ensures var j := Join([first, "", third, last], sep);
            j != [] && j[0] == first[0] && j[|j| - 1] == last[|last| - 1]
  {
    JoinFour(first, "", third, last, sep);
    var head := sep + "" + sep + third + sep;
    if head == [] {
      assert first + sep + "" + sep + third + sep + last == first + last;
      Ends(first, last);
      return;
    }
    assert first + sep + "" + sep + third + sep + last == first + (head + last);
    Ends(head, last);
    Ends(first, head + last);
  }

  /** The first and last characters of a concatenation. */
  lemma Ends(x: string, y: string)
    requires x != [] && y != []
    ensures (x + y)[0] == x[0] && (x + y)[|x + y| - 1] == y[|y| - 1]
  {
  }

  /** The characters `String.prototype.trim` removes: white space and line terminators. */
  predicate IsSpace(c: char)
  {
    || c == '\t' || c == '\n' || c == '\r' || c == ' '
    || c == '\U{000B}' || c == '\U{000C}' || c == '\U{00A0}' || c == '\U{1680}'
    || ('\U{2000}' <= c <= '\U{200A}')
    || c == '\U{2028}' || c == '\U{2029}' || c == '\U{202F}' || c == '\U{205F}'
    || c == '\U{3000}' || c == '\U{FEFF}'
  }

  function TrimEnd(s: string): (r: string)
    ensures |r| <= |s| && r == s[..|r|]
    ensures r == [] || !IsSpace(r[|r| - 1])
  {
    if s != [] && IsSpace(s[|s| - 1]) then TrimEnd(s[..|s| - 1]) else s
  }

  function TrimStart(s: string): (r: string)
    ensures |r| <= |s| && r == s[|s| - |r|..]
    ensures r == [] || !IsSpace(r[0])
  {
    if s != [] && IsSpace(s[0]) then TrimStart(s[1..]) else s
  }

  /** `s.trim()` */
  function Trim(s: string): string
  {
    TrimStart(TrimEnd(s))
  }

  /** Trailing white space of `a + b` all comes from `b` when `a` ends in a visible character. */
  lemma {:induction false} TrimEndAfterVisible(a: string, b: string)
    requires a != [] && !IsSpace(a[|a| - 1])
    ensures TrimEnd(a + b) == a + TrimEnd(b)
  {
    if b == [] {
      assert a + b == a;
    } else if IsSpace(b[|b| - 1]) {
      assert (a + b)[..|a + b| - 1] == a + b[..|b| - 1];
      TrimEndAfterVisible(a, b[..|b| - 1]);
    }
  }

  /** A number in a template literal: decimal digits with a leading "-" when negative. */
  function IntToString(n: int): (s: string)
    ensures n >= 0 ==> Decimal.ParseBigInt(s) == Some(n)
    ensures s != [] && (s[0] == '-' <==> n < 0)
    ensures !IsSpace(s[0]) && !IsSpace(s[|s| - 1])
  {
    Decimal.ParseNatToString(if n < 0 then -n else n);
    if n < 0 then "-" + Decimal.NatToString(-n) else Decimal.NatToString(n)
  }

  // ── Truncation and the cast payload ──────────────────────────────

  /** The longest cast body the agent sends (the network allows 320 bytes). */
  const CAST_MAX_LEN: int := 300

  /**
    `truncate`: short texts are returned as they are; long ones are clipped and end in
    "...". With `maxLen < 3` the clip cannot fit and the result is longer than `maxLen`.
  */
  function Truncate(s: string, maxLen: int): (r: string)
    ensures |s| <= maxLen ==> r == s
    ensures |s| > maxLen ==> 3 <= |r| <= |s| + 3 && r[|r| - 3..] == "..." && r[..|r| - 3] == s[..|r| - 3]
    ensures |s| > maxLen && maxLen >= 3 ==> |r| == maxLen
    ensures |s| > maxLen && maxLen < 3 ==> |r| > maxLen
  {
    if |s| <= maxLen then s else SliceTo(s, maxLen - 3) + "..."
  }

  /** Truncating with a usable limit twice is truncating once. */
  lemma TruncateIdempotent(s: string, maxLen: int)
    requires maxLen >= 3
    ensures |Truncate(s, maxLen)| <= maxLen
    ensures Truncate(Truncate(s, maxLen), maxLen) == Truncate(s, maxLen)
  {
  }

  /** The JSON body `postCast` sends. */
  datatype CastPayload = CastPayload(signerUuid: string, text: string, parent: Option<string>)

  /**
    The payload of `postCast(text, parentHash)`: the text clipped to the cast limit, and a
    `parent` field only when the parent hash is truthy.
  */
  function CastPayloadFor(signerUuid: string, text: string, parentHash: Option<string>): (p: CastPayload)
    ensures |p.text| <= CAST_MAX_LEN
    ensures |text| <= CAST_MAX_LEN ==> p.text == text
    ensures p.parent.Some? <==> Truthy(parentHash)
    ensures p.parent.Some? ==> p.parent == parentHash
    ensures p.signerUuid == signerUuid
  {
    CastPayload(signerUuid, Truncate(text, CAST_MAX_LEN), if Truthy(parentHash) then parentHash else None)
  }

  /** A post attempt: what was sent and the hash `postCast` resolved to. */
  datatype Posted = Posted(payload: CastPayload, hash: Option<string>)

  /**
    `postCast`. `response` is None when the request threw, and otherwise the
    `data.cast.hash` field of the answer (None when absent). Failures resolve to null,
    never to an error, and an empty hash counts as no hash.
  */
  function PostCast(signerUuid: string, text: string, parentHash: Option<string>,
                    response: Option<Option<string>>): (r: Posted)
    ensures r.payload == CastPayloadFor(signerUuid, text, parentHash)
    ensures r.hash.Some? <==> response.Some? && Truthy(response.value)
    ensures r.hash.Some? ==> r.hash == response.value && Truthy(r.hash)
  {
    var hash := if response.Some? && Truthy(response.value) then response.value else None;
    Posted(CastPayloadFor(signerUuid, text, parentHash), hash)
  }

  // ── Themed casts ─────────────────────────────────────────────────

  const BASESCAN_TX_URL: string := "https://sepolia.basescan.org/tx/"

  /** `short(addr)`: the first six and the last four characters around "...". */
  function Short(addr: string): (r: string)
    ensures |r| == (if |addr| <= 6 then |addr| else 6) + 3 + (if |addr| <= 4 then |addr| else 4)
    ensures |addr| >= 10 ==> |r| == 13
    ensures |addr| >= 6 ==> r[..6] == addr[..6] && r[6..9] == "..."
    ensures |addr| >= 4 ==> r[|r| - 4..] == addr[|addr| - 4..]
  {
    SliceTo(addr, 6) + "..." + SliceFrom(addr, -4)
  }

  /** The four fixed lines of the molt announcement. */
  function MoltAnnouncementBody(shellIndex: int, oldAddress: string, newAddress: string, txCount: int): (b: string)
    ensures b != [] && b[0] == 'S' && b[|b| - 1] == '.'
  {
    var first := "Shell #" + IntToString(shellIndex) + " has been shed.";
    var third := Short(oldAddress) + " -> " + Short(newAddress);
    var last := IntToString(txCount) + " transactions lived.";
    Ends("Shell #", IntToString(shellIndex) + " has been shed.");
    Ends(IntToString(txCount), " transactions lived.");
    JoinFourEnds(first, third, last, "\n");
    Join([first, "", third, last], "\n")
  }

  /**
    The main cast of `postMoltAnnouncement`: the four lines, then a blank line and the
    ShellNFT link exactly when the mint hash is truthy; `trim` only touches the hash's
    own trailing white space.
  */
  function MoltAnnouncementText(shellIndex: int, oldAddress: string, newAddress: string,
                                txCount: int, mintTxHash: Option<string>): (text: string)
    ensures !Truthy(mintTxHash) ==> text == MoltAnnouncementBody(shellIndex, oldAddress, newAddress, txCount)
    ensures Truthy(mintTxHash) ==>
              text == MoltAnnouncementBody(shellIndex, oldAddress, newAddress, txCount)
                      + "\n\nShellNFT: " + BASESCAN_TX_URL + TrimEnd(mintTxHash.value)
  {
    var lines := [
      "Shell #" + IntToString(shellIndex) + " has been shed.",
      "",
      Short(oldAddress) + " -> " + Short(newAddress),
      IntToString(txCount) + " transactions lived."];
    var basescanUrl := if Truthy(mintTxHash) then Some(BASESCAN_TX_URL + mintTxHash.value) else None;
    var link := if basescanUrl.Some? then "\nShellNFT: " + basescanUrl.value else "";
    JoinSnoc(lines, link, "\n");
    var body := MoltAnnouncementBody(shellIndex, oldAddress, newAddress, txCount);
    assert Join(lines, "\n") == body;
    TrimOfBody(body, if basescanUrl.Some? then mintTxHash.value else "", basescanUrl.Some?);
    Trim(Join(lines + [link], "\n"))
  }

  /** What `trim` does to the announcement once the body is known to start and end visibly. */
  lemma TrimOfBody(body: string, hash: string, withLink: bool)
    requires body != [] && !IsSpace(body[0]) && !IsSpace(body[|body| - 1])
    ensures !withLink ==> Trim(body + "\n" + "") == body
    ensures withLink ==>
              Trim(body + "\n" + ("\nShellNFT: " + (BASESCAN_TX_URL + hash)))
              == body + "\n\nShellNFT: " + BASESCAN_TX_URL + TrimEnd(hash)
  {
    if withLink {
      var head := body + "\n\nShellNFT: " + BASESCAN_TX_URL;
      assert body + "\n" + ("\nShellNFT: " + (BASESCAN_TX_URL + hash)) == head + hash;
      TrimEndAfterVisible(head, hash);
      assert (head + TrimEnd(hash))[0] == body[0];
    } else {
      var joined := body + "\n" + "";
      assert joined[|joined| - 1] == '\n' && joined[..|joined| - 1] == body;
      assert TrimEnd(body) == body;
      assert TrimEnd(joined) == body;
      assert TrimStart(body) == body;
    }
  }

  /** `pickMoltReflection`'s `%`: truncating, so the remainder takes the dividend's sign. */
  function JsRem(a: int, n: int): (r: int)
    requires n > 0
    ensures a >= 0 ==> 0 <= r < n && r == a % n
    ensures a < 0 ==> -n < r <= 0
  {
    if a >= 0 then a % n else -((-a) % n)
  }

  /** Truncating remainder is odd in its dividend: negating it negates the remainder. */
  lemma JsRemOdd(a: int, n: int)
    requires n > 0
    ensures JsRem(-a, n) == -JsRem(a, n)
  {
  }

  /**
    `pickMoltReflection`, with the draw `randomInt(0, length - 1)` as a parameter. A
    negative shell index can make the index negative, and the lookup is then undefined.
  */
  function PickMoltReflection(shellIndex: int, draw: int, reflections: seq<string>): (r: Option<string>)
    requires 0 <= draw < |reflections|
    ensures shellIndex >= 0 ==> r == Some(reflections[(shellIndex + draw) % |reflections|])
    ensures r.None? <==> shellIndex + draw < 0 && (-(shellIndex + draw)) % |reflections| != 0
    ensures r.Some? ==> r.value in reflections
  {
    var idx := JsRem(shellIndex + draw, |reflections|);
    if idx >= 0 then Some(reflections[idx]) else None
  }

  /** `pickPhilosophical`, with its draw as a parameter. */
  function PickPhilosophical(draw: int, musings: seq<string>): (r: string)
    requires 0 <= draw < |musings|
    ensures r in musings
  {
    musings[draw]
  }

  /** The error `postMoltAnnouncement` rejects with: `truncate` reads `.length` of undefined. */
  datatype AnnounceError = ReflectionUndefined

  /** The posts of one announcement: the main cast, then the reflection when it was sent. */
  datatype Announcement = Announcement(main: Posted, reflection: Option<Posted>)

  /**
    `postMoltAnnouncement`. The threaded reflection is picked and posted only when the main
    post resolved to a hash, and it is posted as a reply to that hash.
  */
  function PostMoltAnnouncement(signerUuid: string, shellIndex: int, oldAddress: string, newAddress: string,
                                txCount: int, mintTxHash: Option<string>,
                                mainResponse: Option<Option<string>>,
                                reflectionDraw: int, reflections: seq<string>,
                                replyResponse: Option<Option<string>>): (r: Result<Announcement, AnnounceError>)
    requires 0 <= reflectionDraw < |reflections|
    ensures r.Err? <==> PostCast(signerUuid, MoltAnnouncementText(shellIndex, oldAddress, newAddress, txCount, mintTxHash),
                                 None, mainResponse).hash.Some?
                        && PickMoltReflection(shellIndex, reflectionDraw, reflections).None?
    ensures r.Ok? ==> r.value.main == PostCast(signerUuid, MoltAnnouncementText(shellIndex, oldAddress, newAddress,
                                                                               txCount, mintTxHash), None, mainResponse)
    ensures r.Ok? ==> r.value.main.payload.parent == None
    ensures r.Ok? ==> (r.value.reflection.Some? <==> Truthy(r.value.main.hash))
    ensures r.Ok? && r.value.reflection.Some? ==>
              && r.value.reflection.value.payload.parent == r.value.main.hash
              && r.value.reflection.value.payload.text
                 == Truncate(PickMoltReflection(shellIndex, reflectionDraw, reflections).value, CAST_MAX_LEN)
    ensures shellIndex >= 0 ==> r.Ok?
  {
    var text := MoltAnnouncementText(shellIndex, oldAddress, newAddress, txCount, mintTxHash);
    var main := PostCast(signerUuid, text, None, mainResponse);
    if main.hash.Some? then
      match PickMoltReflection(shellIndex, reflectionDraw, reflections)
      case None => Err(ReflectionUndefined)
      case Some(reflection) =>
        Ok(Announcement(main, Some(PostCast(signerUuid, reflection, main.hash, replyResponse))))
    else
      Ok(Announcement(main, None))
  }

  /**
    The text `postLifeUpdate` posts: the header, the action's description, and the
    transaction link as a third line exactly when the hash is truthy.
  */
  function LifeUpdateText(shellIndex: int, txNum: int, description: string, txHash: Option<string>): (text: string)
    ensures !Truthy(txHash) ==>
              text == "Shell #" + IntToString(shellIndex) + " | tx " + IntToString(txNum) + "\n" + description
    ensures Truthy(txHash) ==>
              text == "Shell #" + IntToString(shellIndex) + " | tx " + IntToString(txNum) + "\n" + description
                      + "\n" + BASESCAN_TX_URL + txHash.value
  {
    var header := "Shell #" + IntToString(shellIndex) + " | tx " + IntToString(txNum);
    if Truthy(txHash) then
      var url := BASESCAN_TX_URL + txHash.value;
      JoinThree(header, description, url, "\n");
      Join([header, description, url], "\n")
    else
      JoinPair(header, description, "\n");
      Join([header, description], "\n")
  }

  // ── Mentions ─────────────────────────────────────────────────────

  datatype Author = Author(username: Option<string>, fid: Option<int>)

  datatype Cast = Cast(hash: string, text: Option<string>, author: Option<Author>, timestamp: Option<string>)

  /** One entry of the notifications answer. */
  datatype Notification = Notification(cast: Option<Cast>, mostRecentTimestamp: Option<string>)

  /** The record `fetchMentions` makes of a notification. */
  datatype Mention = Mention(hash: string, text: string, authorUsername: string, authorFid: int,
                             timestamp: Option<string>)

  /** The filter: the notification has a cast, and the cast has non-empty text. */
  predicate HasText(n: Notification)
  {
    n.cast.Some? && Truthy(n.cast.value.text)
  }

  /** The map, with its fallbacks for a missing author name, fid and timestamp. */
  function ToMention(n: Notification): (m: Mention)
    requires HasText(n)
    ensures m.hash == n.cast.value.hash && m.text == n.cast.value.text.value && m.text != ""
    ensures m.authorUsername != ""
    ensures n.cast.value.author.Some? && Truthy(n.cast.value.author.value.username) ==>
              m.authorUsername == n.cast.value.author.value.username.value
    ensures !(n.cast.value.author.Some? && Truthy(n.cast.value.author.value.username)) ==>
              m.authorUsername == "unknown"
    ensures n.cast.value.author.None? || n.cast.value.author.value.fid.None? ==> m.authorFid == 0
    ensures n.cast.value.author.Some? && n.cast.value.author.value.fid.Some? ==>
              m.authorFid == n.cast.value.author.value.fid.value
    ensures Truthy(n.cast.value.timestamp) ==> m.timestamp == n.cast.value.timestamp
    ensures !Truthy(n.cast.value.timestamp) ==> m.timestamp == n.mostRecentTimestamp
  {
    var cast := n.cast.value;
    var username := if cast.author.Some? && Truthy(cast.author.value.username)
                    then cast.author.value.username.value else "unknown";
    var fid := if cast.author.Some? && cast.author.value.fid.Some? then cast.author.value.fid.value else 0;
    Mention(cast.hash, cast.text.value, username, fid,
            if Truthy(cast.timestamp) then cast.timestamp else n.mostRecentTimestamp)
  }

  function MentionsOf(ns: seq<Notification>): (ms: seq<Mention>)
    ensures |ms| <= |ns|
    ensures forall k :: 0 <= k < |ms| ==> ms[k].text != ""
  {
    if ns == [] then []
    else if HasText(ns[0]) then [ToMention(ns[0])] + MentionsOf(ns[1..])
    else MentionsOf(ns[1..])
  }

  /** Every mention is made from a notification that passed the filter. */
  lemma {:induction false} MentionsSound(ns: seq<Notification>, k: int)
    requires 0 <= k < |MentionsOf(ns)|
    ensures exists i :: 0 <= i < |ns| && HasText(ns[i]) && MentionsOf(ns)[k] == ToMention(ns[i])
  {
    var rest := MentionsOf(ns[1..]);
    if HasText(ns[0]) && k == 0 {
      assert MentionsOf(ns)[0] == ToMention(ns[0]);
    } else {
      var k' := if HasText(ns[0]) then k - 1 else k;
      assert MentionsOf(ns)[k] == rest[k'];
      MentionsSound(ns[1..], k');
      var i :| 0 <= i < |ns[1..]| && HasText(ns[1..][i]) && rest[k'] == ToMention(ns[1..][i]);
      assert ns[1..][i] == ns[i + 1];
    }
  }

  /** Every notification that passes the filter yields a mention. */
  lemma {:induction false} MentionsComplete(ns: seq<Notification>, i: int)
    requires 0 <= i < |ns| && HasText(ns[i])
    ensures ToMention(ns[i]) in MentionsOf(ns)
  {
    if i > 0 {
      assert ns[1..][i - 1] == ns[i];
      MentionsComplete(ns[1..], i - 1);
    }
  }

  /**
    `fetchMentions`. `response` is the notifications list of the answer, or None when the
    request threw or the answer had no list; both give an empty result.
  */
  function FetchMentions(response: Option<seq<Notification>>): (ms: seq<Mention>)
    ensures response.None? ==> ms == []
    ensures response.Some? ==> ms == MentionsOf(response.value)
    ensures forall k :: 0 <= k < |ms| ==> ms[k].text != ""
  {
    match response
    case None => []
    case Some(ns) => MentionsOf(ns)
  }

  /** Element `a` of `rest` is element `a + 1` once `x` is put in front. */
  lemma ConsIndex<T>(x: T, rest: seq<T>, a: int)
    requires 0 <= a < |rest|
    ensures ([x] + rest)[0] == x && ([x] + rest)[a + 1] == rest[a]
  {
  }

  /** Mentions keep the order of their notifications. */
  lemma {:induction false} MentionsInOrder(ns: seq<Notification>, i: int, j: int)
    requires 0 <= i < j < |ns| && HasText(ns[i]) && HasText(ns[j])
    ensures exists a, b :: 0 <= a < b < |MentionsOf(ns)|
              && MentionsOf(ns)[a] == ToMention(ns[i]) && MentionsOf(ns)[b] == ToMention(ns[j])
  {
    var rest := MentionsOf(ns[1..]);
    var all := MentionsOf(ns);
    assert ns[1..][j - 1] == ns[j];
    if i == 0 {
      assert all == [ToMention(ns[0])] + rest;
      MentionsComplete(ns[1..], j - 1);
      var b :| 0 <= b < |rest| && rest[b] == ToMention(ns[j]);
      ConsIndex(ToMention(ns[0]), rest, b);
    } else {
      assert ns[1..][i - 1] == ns[i];
      MentionsInOrder(ns[1..], i - 1, j - 1);
      var a, b :| 0 <= a < b < |rest| && rest[a] == ToMention(ns[i]) && rest[b] == ToMention(ns[j]);
      if HasText(ns[0]) {
        assert all == [ToMention(ns[0])] + rest;
        ConsIndex(ToMention(ns[0]), rest, a);
        ConsIndex(ToMention(ns[0]), rest, b);
      } else {
        assert all == rest;
      }
    }
  }
}
