/**
 * The key lister: `listAllKeys(bucket, prefix, s3Client)` enumerates every object key under
 * a prefix by following Amazon S3 ListObjectsV2 continuation-token pagination, and drops
 * directory markers (keys ending in `/`).
 *
 * The client is a scripted source of responses: the i-th request it receives is answered
 * by the i-th response of the script, which is either a page or an error.
 */
module KeyLister {
  import opened Wrappers

  /** One element of a page's `Contents`; its `Key` may be absent. */
  datatype ObjectEntry = ObjectEntry(key: Option<string>)

  /** A ListObjectsV2 response: `Contents` (possibly absent), `IsTruncated`, `NextContinuationToken`. */
  datatype Page = Page(contents: Option<seq<ObjectEntry>>, isTruncated: bool, nextToken: Option<string>)

  /** The error a failing list request rejects with. */
  datatype ListError = ListError(message: string)

  type Response = Result<Page, ListError>

  /** The parameters of one ListObjectsV2 request. */
  datatype ListRequest = ListRequest(bucket: string, prefix: Option<string>, continuationToken: Option<string>)

  /** A "directory marker": a key ending in `/`. */
  predicate IsDirectoryMarker(k: string)
  {
    |k| > 0 && k[|k| - 1] == '/'
  }

  /** A key that is listed: present, non-empty and not a directory marker. */
  predicate IsFileKey(k: string)
  {
    k != [] && !IsDirectoryMarker(k)
  }

  /** `prefix || undefined`: an empty prefix is not sent. */
  function PrefixParam(prefix: string): (p: Option<string>)
    ensures p.Some? <==> prefix != []
    ensures p.Some? ==> p.value == prefix
  {
    if prefix == [] then None else Some(prefix)
  }

  /** Whether an entry is listed. */
  predicate Kept(e: ObjectEntry)
  {
    e.key.Some? && IsFileKey(e.key.value)
  }

  /** The keys one page contributes, in order: the file keys of its entries. */
  function KeptKeys(entries: seq<ObjectEntry>): (keys: seq<string>)
    ensures forall i :: 0 <= i < |keys| ==> IsFileKey(keys[i])
  {
    if entries == [] then []
    else (if Kept(entries[0]) then [entries[0].key.value] else []) + KeptKeys(entries[1..])
  }

  lemma {:induction false} KeptKeysSnoc(entries: seq<ObjectEntry>, e: ObjectEntry)
    ensures KeptKeys(entries + [e]) == KeptKeys(entries) + (if Kept(e) then [e.key.value] else [])
  {
    if entries != [] {
      assert (entries + [e])[1..] == entries[1..] + [e];
      KeptKeysSnoc(entries[1..], e);
    } else {
      assert [] + [e] == [e];
    }
  }

  /** The keys a whole page contributes; a page without `Contents` contributes none. */
  function PageKeys(page: Page): (keys: seq<string>)
    ensures forall i :: 0 <= i < |keys| ==> IsFileKey(keys[i])
    ensures page.contents.None? ==> keys == []
  {
    if page.contents.Some? then KeptKeys(page.contents.value) else []
  }

  /** `res.IsTruncated ? res.NextContinuationToken : undefined`. */
  function NextToken(page: Page): (t: Option<string>)
    ensures t.Some? ==> page.isTruncated && t == page.nextToken
    ensures page.isTruncated ==> t == page.nextToken
  {
    if page.isTruncated then page.nextToken else None
  }

  /** `while (ContinuationToken)`: another request follows only on a non-empty token. */
  predicate Continues(page: Page)
    ensures Continues(page) <==>
      page.isTruncated && page.nextToken.Some? && page.nextToken.value != []
  {
    NextToken(page).Some? && NextToken(page).value != []
  }

  /** A response after which the loop sends no further request. */
  predicate StopsAt(r: Response)
    ensures StopsAt(r) <==>
      r.Failure? || !r.value.isTruncated || r.value.nextToken.None? || r.value.nextToken.value == []
  {
    r.Failure? || !Continues(r.value)
  }

  /**
   * The script eventually answers with an error or a final page. Without this the
   * program would keep requesting pages for ever.
   */
  predicate Ends(responses: seq<Response>)
  {
    |responses| > 0 && (StopsAt(responses[0]) || Ends(responses[1..]))
  }

  /** The index of the response that ends the listing: every earlier one is a page that continues. */
  function FirstStop(responses: seq<Response>): (n: nat)
    requires Ends(responses)
    ensures n < |responses| && StopsAt(responses[n])
    ensures forall i :: 0 <= i < n ==> !StopsAt(responses[i])
  {
    if StopsAt(responses[0]) then 0
    else
      var n := FirstStop(responses[1..]);
      assert forall i :: 1 <= i <= n ==> responses[1..][i - 1] == responses[i];
      n + 1
  }

  /** The keys of the first `n` responses, all of them pages, concatenated in request order. */
  function CollectedKeys(responses: seq<Response>, n: nat): (keys: seq<string>)
    requires n <= |responses|
    requires forall i :: 0 <= i < n ==> responses[i].Success?
    ensures forall i :: 0 <= i < |keys| ==> IsFileKey(keys[i])
  {
    if n == 0 then [] else CollectedKeys(responses, n - 1) + PageKeys(responses[n - 1].value)
  }

  /** What the listing returns for a script: the keys of every page read, or the first error. */
  function Listing(responses: seq<Response>): (r: Result<seq<string>, ListError>)
    requires Ends(responses)
    ensures var n := FirstStop(responses);
      r.Failure? <==> responses[n].Failure?
  {
    var n := FirstStop(responses);
    if responses[n].Failure? then Failure(responses[n].error) else Success(CollectedKeys(responses, n + 1))
  }

  /**
   * The continuation token sent with request `i`: none with the first request, and after
   * that the token of the page that answered the previous one.
   */
  function TokenSent(responses: seq<Response>, i: nat): Option<string>
  {
    if i == 0 || i > |responses| || responses[i - 1].Failure? then None
    else NextToken(responses[i - 1].value)
  }

  /** The first `n` requests of a listing, in the order they are sent. */
  function RequestsSent(bucket: string, prefix: string, responses: seq<Response>, n: nat): (sent: seq<ListRequest>)
    ensures |sent| == n
    ensures forall i :: 0 <= i < n ==>
      sent[i] == ListRequest(bucket, PrefixParam(prefix), TokenSent(responses, i))
  {
    if n == 0 then []
    else RequestsSent(bucket, prefix, responses, n - 1) + [ListRequest(bucket, PrefixParam(prefix), TokenSent(responses, n - 1))]
  }

  /**
   * `listAllKeys(bucket, prefix, s3Client)`: sends requests until a response is final,
   * accumulating the file keys of every page. Returns the requests it sent, in order:
   * one per response read, up to and including the one that ends the listing.
   */
  method ListAllKeys(bucket: string, prefix: string, responses: seq<Response>)
    returns (result: Result<seq<string>, ListError>, sent: seq<ListRequest>)
    requires Ends(responses)
    ensures sent == RequestsSent(bucket, prefix, responses, FirstStop(responses) + 1)
    ensures result == Listing(responses)
  {
    var keys: seq<string> := [];
    var token: Option<string> := None;
    var i := 0;
    sent := [];
    while true
      invariant i <= FirstStop(responses)
      invariant sent == RequestsSent(bucket, prefix, responses, i)
      invariant token == TokenSent(responses, i)
      invariant keys == CollectedKeys(responses, i)
      decreases FirstStop(responses) - i
    {
      sent := sent + [ListRequest(bucket, PrefixParam(prefix), token)];
      var res := responses[i];
      if res.Failure? {
        assert i == FirstStop(responses);
        result := Failure(res.error);
        return;
      }
      var page := res.value;
      if page.contents.Some? {
        keys := AppendFileKeys(keys, page.contents.value);
      } else {
        assert keys == keys + PageKeys(page);
      }
      token := NextToken(page);
      i := i + 1;
      if !(token.Some? && token.value != []) {
        assert i - 1 == FirstStop(responses);
        result := Success(keys);
        return;
      }
    }
  }

  /**
   * Pagination: the first request carries no token; every later one carries the
   * non-empty `NextContinuationToken` of a truncated page that answered the request
   * before it. Every request names the bucket, and the prefix only when it is non-empty.
   */
  lemma Pagination(bucket: string, prefix: string, responses: seq<Response>)
    requires Ends(responses)
    ensures var sent := RequestsSent(bucket, prefix, responses, FirstStop(responses) + 1);
      && sent[0].continuationToken == None
      && (forall i :: 0 <= i < |sent| ==> sent[i].bucket == bucket && sent[i].prefix == PrefixParam(prefix))
      && (forall i :: 1 <= i < |sent| ==>
            && responses[i - 1].Success? && responses[i - 1].value.isTruncated
            && sent[i].continuationToken == responses[i - 1].value.nextToken
            && sent[i].continuationToken.Some? && sent[i].continuationToken.value != [])
  {
  }

  /** The inner `for (const obj of res.Contents)` loop: pushes each file key, in order. */
  method AppendFileKeys(keys: seq<string>, entries: seq<ObjectEntry>) returns (keys': seq<string>)
    ensures keys' == keys + KeptKeys(entries)
  {
    keys' := keys;
    var j := 0;
    while j < |entries|
      invariant j <= |entries|
      invariant keys' == keys + KeptKeys(entries[..j])
    {
      assert entries[..j + 1] == entries[..j] + [entries[j]];
      KeptKeysSnoc(entries[..j], entries[j]);
      var key := entries[j].key;
      if key.Some? && IsFileKey(key.value) {
        keys' := keys' + [key.value];
      }
      j := j + 1;
    }
    assert entries[..j] == entries;
  }

  // ---------------------------------------------------------------------------------
  // Properties of the listing

  /** Appending responses after the listing's end does not change what it returns. */
  lemma {:induction false} ListingIgnoresLaterResponses(responses: seq<Response>, more: seq<Response>)
    requires Ends(responses)
    ensures Ends(responses + more)
    ensures FirstStop(responses + more) == FirstStop(responses)
    ensures Listing(responses + more) == Listing(responses)
  {
    assert (responses + more)[0] == responses[0];
    if !StopsAt(responses[0]) {
      assert (responses + more)[1..] == responses[1..] + more;
      ListingIgnoresLaterResponses(responses[1..], more);
    }
    var n := FirstStop(responses);
    if responses[n].Success? {
      assert forall i :: 0 <= i < |responses| ==> (responses + more)[i] == responses[i];
      CollectedPrefix(responses, responses + more, n + 1);
    }
  }

  /** The collected keys depend only on the responses read. */
  lemma {:induction false} CollectedPrefix(a: seq<Response>, b: seq<Response>, n: nat)
    requires n <= |a| && n <= |b|
    requires forall i :: 0 <= i < n ==> a[i] == b[i] && a[i].Success?
    ensures CollectedKeys(a, n) == CollectedKeys(b, n)
  {
    if n > 0 {
      CollectedPrefix(a, b, n - 1);
      var page := a[n - 1].value;
      assert b[n - 1].value == page;
      calc {
        CollectedKeys(a, n);
        CollectedKeys(a, n - 1) + PageKeys(page);
        CollectedKeys(b, n - 1) + PageKeys(page);
        CollectedKeys(b, n);
      }
    }
  }

  /** A page that is not truncated ends the listing even if it carries a token. */
  lemma UntruncatedPageIsLast(page: Page)
    requires !page.isTruncated
    ensures StopsAt(Success(page))
  {
  }

  /** A truncated page with a non-empty token keeps the listing going. */
  lemma TruncatedPageContinues(page: Page)
    requires page.isTruncated && page.nextToken.Some? && page.nextToken.value != []
    ensures !StopsAt(Success(page))
  {
  }

  /**
   * Two pages, the first truncated with token `tok1` and holding a file and a directory
   * marker, the second final: the listing returns the two file keys.
   */
  lemma ExampleTwoPages()
    ensures var script := [
        Success(Page(Some([ObjectEntry(Some("prefix/file1.txt")), ObjectEntry(Some("prefix/subdir/"))]), true, Some("tok1"))),
        Success(Page(Some([ObjectEntry(Some("prefix/file2.txt"))]), false, None))];
      Ends(script) && FirstStop(script) == 1 && Listing(script) == Success(["prefix/file1.txt", "prefix/file2.txt"])
  {
    var e1, e2, e3 := ObjectEntry(Some("prefix/file1.txt")), ObjectEntry(Some("prefix/subdir/")), ObjectEntry(Some("prefix/file2.txt"));
    var p1 := Page(Some([e1, e2]), true, Some("tok1"));
    var p2 := Page(Some([e3]), false, None);
    var script := [Success(p1), Success(p2)];
    assert [e1, e2][1..] == [e2];
    assert [e2][1..] == [];
    assert [e3][1..] == [];
    assert IsDirectoryMarker("prefix/subdir/");
    assert KeptKeys([e1]) == ["prefix/file1.txt"];
    assert KeptKeys([e1, e2]) == ["prefix/file1.txt"];
    assert PageKeys(p2) == ["prefix/file2.txt"];
    assert script[1..] == [Success(p2)];
    assert FirstStop(script) == 1;
    assert CollectedKeys(script, 1) == ["prefix/file1.txt"];
    assert CollectedKeys(script, 2) == CollectedKeys(script, 1) + PageKeys(p2);
    assert Listing(script) == Success(CollectedKeys(script, 2));
    assert ["prefix/file1.txt"] + ["prefix/file2.txt"] == ["prefix/file1.txt", "prefix/file2.txt"];
  }

  /** A failing second request makes the whole listing fail, with no partial key list. */
  lemma ExampleSecondPageFails(err: ListError)
    ensures var script := [
        Success(Page(Some([ObjectEntry(Some("a"))]), true, Some("t1"))),
        Failure(err)];
      Ends(script) && Listing(script) == Failure(err)
  {
  }
}
