/**
 * The redirect endpoint's request handler (`param_handler`): it keeps the
 * campaign tags (query keys beginning `utm_` or `utm-`) under their
 * normalised names, appends a click line when a `utm_id` tag is present,
 * and answers with a 302 redirect to the form URL carrying the tags.
 */
module RedirectServer {
  import opened Wrappers
  import opened Text
  import opened OrderedMap
  import Files

  /** A query parameter, as `(key, value)`. */
  type Pair = (string, string)

  /** `utm_params`: normalised tag name to value, in insertion order. */
  type Tags = OMap<string, string>

  /** What the handler returns: `redirect(url, code=302)`. */
  datatype Response = Response(status: nat, location: string)

  /** The case-sensitive prefix test of the tag filter. */
  predicate IsTagKey(key: string) {
    StartsWith(key, "utm_") || StartsWith(key, "utm-")
  }

  /** `key.replace('-', '_')`. */
  function Normalize(key: string): string {
    Replace(key, '-', '_')
  }

  /** The query key `key` is stored under the tag name `k`. */
  predicate Contributes(key: string, k: string) {
    IsTagKey(key) && Normalize(key) == k
  }

  /** A stored tag name has no `-` and begins with `utm_`. */
  lemma NormalizedKeyShape(key: string)
    requires IsTagKey(key)
    ensures '-' !in Normalize(key)
    ensures StartsWith(Normalize(key), "utm_")
  {
    if StartsWith(key, "utm_") {
      ReplaceRemoves(key, '-', '_', "utm_");
    } else {
      ReplaceRemoves(key, '-', '_', "utm");
      assert Normalize(key)[3] == '_';
      assert Normalize(key)[..4] == Normalize(key)[..3] + [Normalize(key)[3]];
    }
  }

  /** Exactly two query keys are stored as `utm_id`: `utm_id` and `utm-id`. */
  lemma NormalizeToUtmId(key: string)
    ensures Normalize(key) == "utm_id" <==> key == "utm_id" || key == "utm-id"
  {
    var r := Normalize(key);
    if r == "utm_id" {
      assert |key| == 6;
      assert key[0] == 'u' && key[1] == 't' && key[2] == 'm' by {
        assert r[0] == 'u' && r[1] == 't' && r[2] == 'm';
      }
      assert key[4] == 'i' && key[5] == 'd' by {
        assert r[4] == 'i' && r[5] == 'd';
      }
      assert key[3] == '_' || key[3] == '-' by {
        assert r[3] == '_';
      }
      if key[3] == '_' {
        assert key == "utm_id";
      } else {
        assert key == "utm-id";
      }
    }
    if key == "utm-id" {
      assert r[3] == '_';
      assert r == "utm_id";
    }
  }

  /** The tag set the loop at the head of the handler builds from the
      query parameters, taken in iteration order. */
  function TagsOf(query: seq<Pair>): (r: Tags)
    ensures r.Valid()
  {
    if query == [] then Empty()
    else
      var prev := TagsOf(query[..|query| - 1]);
      var key := query[|query| - 1].0;
      if IsTagKey(key) then prev.Put(Normalize(key), query[|query| - 1].1) else prev
  }

  /** The filter loop: `utm_params[key.replace('-', '_')] = value` for
      every tag key, in order. */
  method ExtractTags(query: seq<Pair>) returns (tags: Tags)
    ensures tags.Valid()
    ensures tags == TagsOf(query)
  {
    tags := Empty();
    var i := 0;
    while i < |query|
      invariant 0 <= i <= |query|
      invariant tags == TagsOf(query[..i])
    {
      var key := query[i].0;
      if StartsWith(key, "utm_") || StartsWith(key, "utm-") {
        var normalizedKey := Replace(key, '-', '_');
        tags := tags.Put(normalizedKey, query[i].1);
      }
      assert query[..i + 1][..i] == query[..i];
      i := i + 1;
    }
    assert query[..|query|] == query;
  }

  /** A tag name is stored iff some query key normalises to it; every other
      key is absent. */
  lemma {:induction false} TagKeys(query: seq<Pair>, k: string)
    ensures k in TagsOf(query).entries <==> exists i :: 0 <= i < |query| && Contributes(query[i].0, k)
    decreases |query|
  {
    if query != [] {
      var init := query[..|query| - 1];
      TagKeys(init, k);
      if exists i :: 0 <= i < |init| && Contributes(init[i].0, k) {
        var i :| 0 <= i < |init| && Contributes(init[i].0, k);
        assert query[i] == init[i];
      }
      if exists i :: 0 <= i < |query| && Contributes(query[i].0, k) {
        var i :| 0 <= i < |query| && Contributes(query[i].0, k);
        if i < |init| {
          assert init[i] == query[i];
        }
      }
    }
  }

  /** Every stored tag name contains no `-` and begins with `utm_`. */
  lemma TagsNormalised(query: seq<Pair>)
    ensures forall k :: k in TagsOf(query).entries ==> '-' !in k && StartsWith(k, "utm_")
  {
    forall k | k in TagsOf(query).entries
      ensures '-' !in k && StartsWith(k, "utm_")
    {
      TagKeys(query, k);
      var i :| 0 <= i < |query| && Contributes(query[i].0, k);
      NormalizedKeyShape(query[i].0);
    }
  }

  /** A stored value is the value of the last query key normalising to its
      name: a later key overwrites an earlier one. */
  lemma {:induction false} TagsLastWins(query: seq<Pair>, k: string)
    requires k in TagsOf(query).entries
    ensures exists i :: 0 <= i < |query| && Contributes(query[i].0, k)
              && TagsOf(query).entries[k] == query[i].1
              && forall j :: i < j < |query| ==> !Contributes(query[j].0, k)
    decreases |query|
  {
    var n := |query| - 1;
    var init := query[..n];
    if Contributes(query[n].0, k) {
      assert TagsOf(query).entries[k] == query[n].1;
    } else {
      assert k in TagsOf(init).entries;
      TagsLastWins(init, k);
      var i :| 0 <= i < |init| && Contributes(init[i].0, k)
                && TagsOf(init).entries[k] == init[i].1
                && forall j :: i < j < |init| ==> !Contributes(init[j].0, k);
      assert query[i] == init[i];
      forall j | i < j < |query| ensures !Contributes(query[j].0, k) {
        if j < n {
          assert query[j] == init[j];
        }
      }
    }
  }

  /** Tag names never move: the names stored after any prefix of the
      query are a prefix of the final order. */
  lemma {:induction false} TagsOrderStable(query: seq<Pair>, n: nat)
    requires n <= |query|
    ensures TagsOf(query[..n]).keys <= TagsOf(query).keys
    decreases |query|
  {
    if n < |query| {
      var init := query[..|query| - 1];
      assert init[..n] == query[..n];
      TagsOrderStable(init, n);
    } else {
      assert query[..n] == query;
    }
  }

  /** A tag name takes the position of the first query key that produces
      it, after the names of all the earlier keys. */
  lemma TagsFirstInsertion(query: seq<Pair>, i: nat, k: string)
    requires i < |query| && Contributes(query[i].0, k)
    requires forall j :: 0 <= j < i ==> !Contributes(query[j].0, k)
    ensures TagsOf(query[..i + 1]).keys == TagsOf(query[..i]).keys + [k]
    ensures |TagsOf(query[..i]).keys| < |TagsOf(query).keys|
    ensures TagsOf(query).keys[|TagsOf(query[..i]).keys|] == k
  {
    var pre := query[..i];
    assert query[..i + 1][..i] == pre;
    TagKeys(pre, k);
    forall j | 0 <= j < |pre| ensures !Contributes(pre[j].0, k) {
      assert pre[j] == query[j];
    }
    TagsOrderStable(query, i + 1);
  }

  /** Two tag keys that normalise to the same name give one entry: the
      later value, under the name of the first. */
  lemma CollidingKeysMerge(key1: string, value1: string, key2: string, value2: string)
    requires IsTagKey(key1) && IsTagKey(key2) && Normalize(key1) == Normalize(key2)
    ensures TagsOf([(key1, value1), (key2, value2)]) ==
              OMap([Normalize(key1)], map[Normalize(key1) := value2])
  {
    var q: seq<Pair> := [(key1, value1), (key2, value2)];
    var k := Normalize(key1);
    assert q[..1][..0] == [];
    assert q[..1] == [(key1, value1)];
    assert TagsOf(q[..1]) == OMap([k], map[k := value1]);
    assert map[k := value1][k := value2] == map[k := value2];
  }

  /** `utm-id=a&utm_id=b` gives the single tag `utm_id` with value `b`. */
  lemma UtmIdSpellingsMerge()
    ensures TagsOf([("utm-id", "a"), ("utm_id", "b")]) == OMap(["utm_id"], map["utm_id" := "b"])
  {
    NormalizeToUtmId("utm-id");
    NormalizeToUtmId("utm_id");
    assert StartsWith("utm-id", "utm-");
    assert StartsWith("utm_id", "utm_");
    CollidingKeysMerge("utm-id", "a", "utm_id", "b");
  }

  /** The click line: `f"{timestamp}: {utm_params['utm_id']}\n"`, written
      only when the tag set holds `utm_id`. */
  function ClickLine(tags: Tags, timestamp: string): Option<string> {
    if "utm_id" in tags.entries then Some(timestamp + ": " + tags.entries["utm_id"] + "\n") else None
  }

  /** The two query keys that are stored as `utm_id`. */
  predicate IsIdKey(key: string) {
    key == "utm_id" || key == "utm-id"
  }

  lemma IdKeyContributes(key: string)
    ensures Contributes(key, "utm_id") <==> IsIdKey(key)
  {
    NormalizeToUtmId(key);
    assert StartsWith("utm-id", "utm-");
    assert StartsWith("utm_id", "utm_");
  }

  /** A click line is written iff some query key was `utm_id` or `utm-id`;
      it then carries the value of the last such key. */
  lemma ClickLineFromQuery(query: seq<Pair>, timestamp: string)
    ensures ClickLine(TagsOf(query), timestamp).Some? <==>
              exists i :: 0 <= i < |query| && IsIdKey(query[i].0)
    ensures ClickLine(TagsOf(query), timestamp).Some? ==>
              exists i :: 0 <= i < |query| && IsIdKey(query[i].0)
                && ClickLine(TagsOf(query), timestamp).value == timestamp + ": " + query[i].1 + "\n"
                && forall j :: i < j < |query| ==> !IsIdKey(query[j].0)
  {
    TagKeys(query, "utm_id");
    forall i | 0 <= i < |query| ensures Contributes(query[i].0, "utm_id") <==> IsIdKey(query[i].0) {
      IdKeyContributes(query[i].0);
    }
    if "utm_id" in TagsOf(query).entries {
      TagsLastWins(query, "utm_id");
    }
  }

  /** `[(k if '-' in k else k, v) for k, v in utm_params.items()]`: both
      branches give `k`, so the pairs are the items unchanged. */
  function OutboundPairs(items: seq<Pair>): (r: seq<Pair>)
    ensures r == items
  {
    seq(|items|, i requires 0 <= i < |items| => (if '-' in items[i].0 then items[i].0 else items[i].0, items[i].1))
  }

  /** The keys re-attached to the redirect are the normalised names, never
      a hyphenated original spelling. */
  lemma OutboundKeysNormalised(query: seq<Pair>)
    ensures forall p :: p in OutboundPairs(TagsOf(query).Items()) ==> '-' !in p.0 && StartsWith(p.0, "utm_")
  {
    var tags := TagsOf(query);
    TagsNormalised(query);
    forall p | p in tags.Items() ensures '-' !in p.0 && StartsWith(p.0, "utm_") {
      var i :| 0 <= i < |tags.Items()| && tags.Items()[i] == p;
      assert tags.keys[i] in tags.entries;
    }
  }

  /** A single tag key is passed on under its normalised name: a
      hyphenated spelling such as `utm-source` reaches the form as
      `utm_source`. */
  lemma HyphenKeyPassedNormalised(key: string, value: string)
    requires IsTagKey(key)
    ensures OutboundPairs(TagsOf([(key, value)]).Items()) == [(Normalize(key), value)]
    ensures '-' in key ==> Normalize(key) != key
  {
    var q: seq<Pair> := [(key, value)];
    assert q[..0] == [];
    NormalizedKeyShape(key);
  }

  /** The redirect target: the form URL, followed by `?` and the encoded
      pairs when there are any. `encode` stands for `urlencode`. */
  function RedirectUrl(formUrl: string, pairs: seq<Pair>, encode: seq<Pair> -> string): (r: string)
    ensures r == formUrl <==> pairs == []
    ensures pairs != [] ==> StartsWith(r, formUrl + "?") && r[|formUrl| + 1..] == encode(pairs)
  {
    if pairs != [] then formUrl + "?" + encode(pairs) else formUrl
  }

  /** `param_handler`: the query parameters as iterated, the time of the
      request, the configured form URL and the click log file. */
  method ParamHandler(query: seq<Pair>, timestamp: string, formUrl: string,
                      encode: seq<Pair> -> string, clicks: Files.AppendFile)
    returns (resp: Response)
    modifies clicks
    ensures resp.status == 302
    ensures resp.location == RedirectUrl(formUrl, TagsOf(query).Items(), encode)
    ensures clicks.content == old(clicks.content) + match ClickLine(TagsOf(query), timestamp)
                                                      case Some(line) => line
                                                      case None => ""
  {
    var utmParams := ExtractTags(query);
    if "utm_id" in utmParams.entries {
      clicks.Write(timestamp + ": " + utmParams.entries["utm_id"] + "\n");
    }
    var originalUtmPairs := OutboundPairs(utmParams.Items());
    var redirectUrl;
    if originalUtmPairs != [] {
      var queryString := encode(originalUtmPairs);
      redirectUrl := formUrl + "?" + queryString;
    } else {
      redirectUrl := formUrl;
    }
    resp := Response(302, redirectUrl);
  }
}
