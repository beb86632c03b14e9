/** What the playback-session checks and the redirect mean in terms of a query's own pairs: which
    queries are let through, and which session, stream and cache mark the redirect carries. */
module SessionQuery {
  import opened Prelude
  import opened Text
  import opened SessionRedirect

  /** The pair gives this key a value. */
  predicate Gives(pair: string, key: string) {
    |key| < |pair| && pair[..|key|] == key && pair[|key|] == '='
  }

  /** The value of the first pair that gives the key one. */
  function FirstValue(pairs: seq<string>, key: string): Option<string> {
    if pairs == [] then None
    else if Gives(pairs[0], key) then Some(pairs[0][|key| + 1..])
    else FirstValue(pairs[1..], key)
  }

  lemma GivesByKey(pair: string, key: string)
    requires '=' !in key
    ensures Gives(pair, key) <==> IndexOf(pair, '=') < |pair| && pair[..IndexOf(pair, '=')] == key
  {
    hide IndexOf;
    var eq := IndexOf(pair, '=');
    if Gives(pair, key) {
      var rest := pair[|key| + 1..];
      assert pair == key + ['='] + rest;
      IndexOfFirst(key, '=', rest);
    }
  }

  lemma {:induction false} FirstValueSnoc(pairs: seq<string>, pair: string, key: string)
    ensures FirstValue(pairs + [pair], key) ==
            if FirstValue(pairs, key).Some? then FirstValue(pairs, key)
            else if Gives(pair, key) then Some(pair[|key| + 1..]) else None
  {
    hide Gives;
    if pairs == [] {
      assert pairs + [pair] == [pair] && [pair][1..] == [];
    } else {
      FirstValueSnoc(pairs[1..], pair, key);
      assert (pairs + [pair])[1..] == pairs[1..] + [pair];
    }
  }

  /** The parsed query maps a key exactly to the first value it is given. */
  lemma {:induction false} ParamsAreFirstValues(pairs: seq<string>, key: string)
    requires '=' !in key
    ensures (if key in Params(pairs) then Some(Params(pairs)[key]) else None) == FirstValue(pairs, key)
  {
    hide IndexOf;
    if pairs != [] {
      var before, last := pairs[..|pairs| - 1], pairs[|pairs| - 1];
      ParamsAreFirstValues(before, key);
      GivesByKey(last, key);
      FirstValueSnoc(before, last, key);
      assert pairs == before + [last];
    }
  }

  predicate HexDigit(c: char) {
    c in "0123456789abcdef"
  }

  lemma SessionByDigits(s: string)
    ensures IsSession(s) <==> |s| == 32 && forall i | 0 <= i < |s| :: HexDigit(s[i])
  {
    forall i | 0 <= i < |s|
      ensures HexDigit(s[i]) <==> '0' <= s[i] <= '9' || 'a' <= s[i] <= 'f'
    {
      HexDigits(s[i]);
    }
  }

  lemma HexDigits(c: char)
    ensures HexDigit(c) <==> '0' <= c <= '9' || 'a' <= c <= 'f'
  {
    var digits := "0123456789abcdef";
    if '0' <= c <= '9' {
      assert digits[(c - '0') as int] == c;
    } else if 'a' <= c <= 'f' {
      assert digits[(c - 'a') as int + 10] == c;
    }
  }

  /** A playlist query is let through without a redirect exactly when its first session value is
      32 hexadecimal digits, its first stream value is not empty and, with the shared cache, its
      first cache value is 1. */
  lemma AcceptedExactly(sharedCache: bool, query: string)
    ensures var pairs := Split(query, '&');
            var session, stream := FirstValue(pairs, "viewer_session"), FirstValue(pairs, "viewer_stream");
            Accepts(sharedCache, Params(pairs)) <==>
              && session.Some? && |session.value| == 32
              && (forall i | 0 <= i < |session.value| :: HexDigit(session.value[i]))
              && stream.Some? && stream.value != ""
              && (sharedCache ==> FirstValue(pairs, "viewer_cache") == Some("1"))
  {
    hide Split, Params, FirstValue, HexDigit, IsSession;
    var pairs := Split(query, '&');
    ParamsAreFirstValues(pairs, "viewer_session");
    ParamsAreFirstValues(pairs, "viewer_stream");
    ParamsAreFirstValues(pairs, "viewer_cache");
    if FirstValue(pairs, "viewer_session").Some? {
      SessionByDigits(FirstValue(pairs, "viewer_session").value);
    }
  }

  lemma MintedValues(sharedCache: bool, session: string, stream: string)
    requires Octets(stream)
    ensures var p := Params(Minted(sharedCache, session, stream));
            && SESSION in p && p[SESSION] == session && STREAM in p && p[STREAM] == Encode(stream)
            && (CACHE in p <==> sharedCache) && (sharedCache ==> p[CACHE] == "1")
  {
    hide Params, Encode;
    ParamsOfPairs(SESSION, session, STREAM, Encode(stream), CACHE, "1");
    var both := [SESSION + "=" + session, STREAM + "=" + Encode(stream)];
    assert both + [] == both;
  }

  /** The redirect carries the session minted, the stream's own name, percent-encoded, and the
      cache mark exactly with the shared cache; whatever the query brought along under those
      names is gone. */
  lemma RedirectCarries(sharedCache: bool, query: string, session: string, stream: string)
    requires Safe(query) && Octets(stream) && stream != "" && IsSession(session)
    ensures var pairs := Split(Join(NewPairs(sharedCache, query, session, stream)), '&');
            && FirstValue(pairs, "viewer_session") == Some(session)
            && FirstValue(pairs, "viewer_stream").Some? && Decode(FirstValue(pairs, "viewer_stream").value) == stream
            && FirstValue(pairs, "viewer_cache") == (if sharedCache then Some("1") else None)
  {
    hide Split, Params, FirstValue, Join, Minted, Encode, Decode, Safe, IsSession, Unrelated;
    var kept, minted := Unrelated(Split(query, '&')), Minted(sharedCache, session, stream);
    NewQueryIsAccepted(sharedCache, query, session, stream);
    MintedValues(sharedCache, session, stream);
    NewParam(kept, minted, SESSION, query);
    NewParam(kept, minted, STREAM, query);
    NewParam(kept, minted, CACHE, query);
    ParamsAreFirstValues(kept + minted, "viewer_session");
    ParamsAreFirstValues(kept + minted, "viewer_stream");
    ParamsAreFirstValues(kept + minted, "viewer_cache");
    EncodingReadsBack(stream);
  }
}
