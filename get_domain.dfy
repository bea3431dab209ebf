/** Reading the zone id and API token out of a cloudflared certificate (portacode/tunneling/get_domain.py). */
module GetDomain {
  import opened Wrappers
  import opened Text
  import opened Collections

  const TokenBegin: string := "-----BEGIN ARGO TUNNEL TOKEN-----"
  const TokenEnd: string := "-----END ARGO TUNNEL TOKEN-----"

  const NoBlockError: string := "No ARGO TUNNEL TOKEN block found in cert."
  const DecodeError: string := "Failed to decode ARGO TUNNEL TOKEN JSON."
  const MissingFieldsError: string := "zoneID or apiToken missing from cert token JSON."

  predicate IsBegin(line: string) { Strip(line) == TokenBegin }
  predicate IsEnd(line: string) { Strip(line) == TokenEnd }

  /** No line is both markers. */
  lemma {:induction false} MarkersDiffer(line: string)
    ensures !(IsBegin(line) && IsEnd(line))
  {
    assert TokenBegin[5] != TokenEnd[5];
  }

  /**
   * The parts the scan of `extract_token_json` collects from `lines` when it
   * starts inside or outside the block: a BEGIN line enters the block, an END
   * line stops the scan, and inside the block every other line is kept stripped.
   */
  function Collect(lines: seq<string>, inToken: bool): seq<string>
    decreases |lines|
  {
    if |lines| == 0 then []
    else if IsBegin(lines[0]) then Collect(lines[1..], true)
    else if IsEnd(lines[0]) then []
    else (if inToken then [Strip(lines[0])] else []) + Collect(lines[1..], inToken)
  }

  /** The scan loop of `extract_token_json` over the certificate's lines. */
  method TokenParts(lines: seq<string>) returns (parts: seq<string>)
    ensures parts == Collect(lines, false)
  {
    var inToken := false;
    parts := [];
    var i := 0;
    while i < |lines|
      invariant 0 <= i <= |lines|
      invariant parts + Collect(lines[i..], inToken) == Collect(lines, false)
    {
      var line := Strip(lines[i]);
      TokenStep(lines, i, inToken, parts);
      if line == TokenBegin {
        inToken := true;
        i := i + 1;
        continue;
      }
      if line == TokenEnd {
        inToken := false;
        break;
      }
      if inToken {
        parts := parts + [line];
      }
      i := i + 1;
    }
  }

  /** One pass of the scan loop keeps its invariant, and an END line leaves the parts complete. */
  lemma {:induction false} TokenStep(lines: seq<string>, i: nat, inToken: bool, parts: seq<string>)
    requires i < |lines| && parts + Collect(lines[i..], inToken) == Collect(lines, false)
    ensures IsBegin(lines[i]) ==> parts + Collect(lines[i + 1..], true) == Collect(lines, false)
    ensures !IsBegin(lines[i]) && IsEnd(lines[i]) ==> parts == Collect(lines, false)
    ensures !IsBegin(lines[i]) && !IsEnd(lines[i]) ==>
      (if inToken then parts + [Strip(lines[i])] else parts) + Collect(lines[i + 1..], inToken) == Collect(lines, false)
  {
    CollectStep(lines, i, inToken);
    if !IsBegin(lines[i]) && !IsEnd(lines[i]) && inToken {
      AppendAssoc(parts, [Strip(lines[i])], Collect(lines[i + 1..], inToken));
    }
  }

  /** The scan of `lines[i..]` in terms of line `i` and the scan of the lines after it. */
  lemma {:induction false} CollectStep(lines: seq<string>, i: nat, inToken: bool)
    requires i < |lines|
    ensures Collect(lines[i..], inToken) ==
      if IsBegin(lines[i]) then Collect(lines[i + 1..], true)
      else if IsEnd(lines[i]) then []
      else (if inToken then [Strip(lines[i])] else []) + Collect(lines[i + 1..], inToken)
  {
    assert lines[i..][1..] == lines[i + 1..];
  }

  function StripAll(lines: seq<string>): (r: seq<string>)
    ensures |r| == |lines| && forall k :: 0 <= k < |lines| ==> r[k] == Strip(lines[k])
    decreases |lines|
  {
    if |lines| == 0 then [] else [Strip(lines[0])] + StripAll(lines[1..])
  }

  /** Lines with no marker before the first BEGIN, or outside the block, contribute nothing. */
  lemma {:induction false} CollectOutside(pre: seq<string>, rest: seq<string>)
    requires forall k :: 0 <= k < |pre| ==> !IsBegin(pre[k]) && !IsEnd(pre[k])
    ensures Collect(pre + rest, false) == Collect(rest, false)
    decreases |pre|
  {
    if |pre| == 0 {
      assert pre + rest == rest;
    } else {
      assert (pre + rest)[0] == pre[0];
      assert (pre + rest)[1..] == pre[1..] + rest;
      CollectOutside(pre[1..], rest);
    }
  }

  /** Inside the block, marker-free lines are kept stripped, and the END line ends the collection. */
  lemma {:induction false} CollectInside(body: seq<string>, endLine: string, post: seq<string>)
    requires forall k :: 0 <= k < |body| ==> !IsBegin(body[k]) && !IsEnd(body[k])
    requires IsEnd(endLine)
    ensures Collect(body + [endLine] + post, true) == StripAll(body)
    decreases |body|
  {
    var s := body + [endLine] + post;
    if |body| == 0 {
      assert s[0] == endLine;
      MarkersDiffer(endLine);
    } else {
      assert s[0] == body[0];
      assert s[1..] == body[1..] + [endLine] + post;
      CollectInside(body[1..], endLine, post);
    }
  }

  lemma {:induction false} CollectAfterBegin(beginLine: string, rest: seq<string>)
    requires IsBegin(beginLine)
    ensures Collect([beginLine] + rest, false) == Collect(rest, true)
  {
    assert ([beginLine] + rest)[0] == beginLine;
    assert ([beginLine] + rest)[1..] == rest;
  }

  /**
   * The parts are exactly the stripped lines strictly between the first BEGIN
   * line and the END line after it, when no marker precedes that BEGIN; lines
   * before it and after the END are ignored.
   */
  lemma {:induction false} CollectBlock(pre: seq<string>, beginLine: string, body: seq<string>, endLine: string, post: seq<string>)
    requires forall k :: 0 <= k < |pre| ==> !IsBegin(pre[k]) && !IsEnd(pre[k])
    requires forall k :: 0 <= k < |body| ==> !IsBegin(body[k]) && !IsEnd(body[k])
    requires IsBegin(beginLine) && IsEnd(endLine)
    ensures Collect(pre + [beginLine] + body + [endLine] + post, false) == StripAll(body)
  {
    var inner := body + [endLine] + post;
    var rest := [beginLine] + inner;
    BlockRegroup(pre, beginLine, body, endLine, post);
    CollectOutside(pre, rest);
    CollectAfterBegin(beginLine, inner);
    CollectInside(body, endLine, post);
  }

  lemma {:induction false} BlockRegroup(pre: seq<string>, beginLine: string, body: seq<string>, endLine: string, post: seq<string>)
    ensures pre + [beginLine] + body + [endLine] + post == pre + ([beginLine] + (body + [endLine] + post))
  {
    AppendAssoc(pre, [beginLine], body + [endLine] + post);
    AppendAssoc(pre + [beginLine], body + [endLine], post);
    AppendAssoc(pre + [beginLine], body, [endLine]);
  }

  /** An END line met before any BEGIN stops the scan with nothing collected. */
  lemma {:induction false} CollectEndFirst(pre: seq<string>, endLine: string, rest: seq<string>)
    requires forall k :: 0 <= k < |pre| ==> !IsBegin(pre[k]) && !IsEnd(pre[k])
    requires IsEnd(endLine)
    ensures Collect(pre + [endLine] + rest, false) == []
  {
    MarkersDiffer(endLine);
    assert ([endLine] + rest)[0] == endLine;
    assert pre + [endLine] + rest == pre + ([endLine] + rest);
    CollectOutside(pre, [endLine] + rest);
  }

  /**
   * `extract_token_json` after the file is read: `decode` stands for base64
   * decoding (section 4 of RFC 4648), UTF-8 and JSON parsing, `None` where any
   * of them raises.
   */
  method ExtractTokenJson<T>(lines: seq<string>, decode: string -> Option<T>) returns (r: Result<T, string>)
    ensures Collect(lines, false) == [] ==> r == Err(NoBlockError)
    ensures Collect(lines, false) != [] ==>
      r == (match decode(Concat(Collect(lines, false))) case None => Err(DecodeError) case Some(t) => Ok(t))
  {
    var parts := TokenParts(lines);
    if |parts| == 0 {
      return Err(NoBlockError);
    }
    var decoded := decode(Concat(parts));
    if decoded.None? {
      return Err(DecodeError);
    }
    return Ok(decoded.value);
  }

  /** The field check of `get_authenticated_domain`: the zone id and API token passed on to the zone lookup. */
  function TokenCredentials(token: map<string, Value>): (r: Result<(Value, Value), string>)
    ensures r.Ok? <==> Truthy(Get(token, "zoneID")) && Truthy(Get(token, "apiToken"))
    ensures r.Ok? ==> r.value.0 == token["zoneID"] && r.value.1 == token["apiToken"]
    ensures r.Err? ==> r.error == MissingFieldsError
  {
    var zoneId := Get(token, "zoneID");
    var apiToken := Get(token, "apiToken");
    if !Truthy(zoneId) || !Truthy(apiToken) then Err(MissingFieldsError) else Ok((zoneId, apiToken))
  }
}
