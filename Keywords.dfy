/**
 * The keyword matcher of `update_adb_sensor`: for every (keyword, label) pair
 * of the configured mapping, in mapping order, the label is set to "on" when
 * the lower-cased keyword occurs in the (already lower-cased) ADB response and
 * to "off" otherwise, overwriting whatever the attribute map held under that
 * label.
 */
module Keywords {
  import opened Text

  /** The configured `keywords` dict as its items in insertion order: (keyword, label). */
  type KeywordMap = seq<(string, string)>

  const On: string := "on"
  const Off: string := "off"

  /** `keywords.keys()`, in order. */
  function Keys(keywords: KeywordMap): (keys: seq<string>)
    ensures |keys| == |keywords|
    ensures forall i :: 0 <= i < |keys| ==> keys[i] == keywords[i].0
  {
    seq(|keywords|, i requires 0 <= i < |keywords| => keywords[i].0)
  }

  /** `set(keywords.values())`: every label the mapping can set. */
  function Labels(keywords: KeywordMap): (labels: set<string>)
    ensures forall i :: 0 <= i < |keywords| ==> keywords[i].1 in labels
    ensures forall l :: l in labels ==> exists i :: 0 <= i < |keywords| && keywords[i].1 == l
  {
    set i | 0 <= i < |keywords| :: keywords[i].1
  }

  /** The value one keyword gives its label for a lower-cased response. */
  function Flag(keyword: string, response: string): string {
    if Contains(response, Lower(keyword)) then On else Off
  }

  /**
   * Pair `i` is the one that decides its label: no later pair has the same
   * label, so the loop's last write to that label is pair `i`'s.
   */
  predicate Decides(keywords: KeywordMap, i: int) {
    0 <= i < |keywords| && forall j :: i < j < |keywords| ==> keywords[j].1 != keywords[i].1
  }

  /** The attribute map after running the keyword loop over `keywords` on `attributes`. */
  function Flags(attributes: map<string, string>, keywords: KeywordMap, response: string): map<string, string>
    decreases |keywords|
  {
    if keywords == [] then attributes
    else
      var (keyword, deviceName) := keywords[|keywords| - 1];
      Flags(attributes, keywords[..|keywords| - 1], response)[deviceName := Flag(keyword, response)]
  }

  /** The loop adds exactly the labels to the keys it started from. */
  lemma {:induction false} FlagsKeys(attributes: map<string, string>, keywords: KeywordMap, response: string)
    ensures Flags(attributes, keywords, response).Keys == attributes.Keys + Labels(keywords)
    decreases |keywords|
  {
    if keywords != [] {
      var init := keywords[..|keywords| - 1];
      FlagsKeys(attributes, init, response);
      assert Labels(keywords) == Labels(init) + {keywords[|keywords| - 1].1};
    }
  }

  /** A key that is not a label keeps the value it had before the loop. */
  lemma {:induction false} FlagsFrame(attributes: map<string, string>, keywords: KeywordMap, response: string, key: string)
    requires key in attributes && key !in Labels(keywords)
    ensures key in Flags(attributes, keywords, response)
    ensures Flags(attributes, keywords, response)[key] == attributes[key]
    decreases |keywords|
  {
    if keywords != [] {
      var init := keywords[..|keywords| - 1];
      assert keywords[|keywords| - 1].1 != key;
      FlagsFrame(attributes, init, response, key);
    }
  }

  /**
   * The label of the deciding pair `i` holds exactly "on" or "off", and it is
   * "on" iff that pair's keyword, lower-cased, is a substring of the response.
   */
  lemma {:induction false} FlagsDecided(attributes: map<string, string>, keywords: KeywordMap, response: string, i: int)
    requires Decides(keywords, i)
    ensures keywords[i].1 in Flags(attributes, keywords, response)
    ensures Flags(attributes, keywords, response)[keywords[i].1] == On
            <==> Contains(response, Lower(keywords[i].0))
    ensures Flags(attributes, keywords, response)[keywords[i].1] == Off
            <==> !Contains(response, Lower(keywords[i].0))
    decreases |keywords|
  {
    if i < |keywords| - 1 {
      var init := keywords[..|keywords| - 1];
      assert Decides(init, i);
      FlagsDecided(attributes, init, response, i);
    }
  }

  /**
   * Against the empty response a label is "on" exactly when its deciding
   * keyword is empty: the empty string is a substring of every string.
   */
  lemma FlagsEmptyResponse(attributes: map<string, string>, keywords: KeywordMap, i: int)
    requires Decides(keywords, i)
    ensures keywords[i].1 in Flags(attributes, keywords, "")
    ensures Flags(attributes, keywords, "")[keywords[i].1] == if keywords[i].0 == "" then On else Off
  {
    FlagsDecided(attributes, keywords, "", i);
    ContainsEmpty("", Lower(keywords[i].0));
    LowerEmpty(keywords[i].0);
  }

  /** Every label holds "on" or "off" once the loop has run; the last pair with that label decides which. */
  lemma {:induction false} FlagsLabels(attributes: map<string, string>, keywords: KeywordMap, response: string, deviceName: string)
    requires deviceName in Labels(keywords)
    ensures exists i :: Decides(keywords, i) && keywords[i].1 == deviceName
    ensures deviceName in Flags(attributes, keywords, response)
    ensures Flags(attributes, keywords, response)[deviceName] in {On, Off}
  {
    var i :| 0 <= i < |keywords| && keywords[i].1 == deviceName;
    while !Decides(keywords, i)
      invariant 0 <= i < |keywords| && keywords[i].1 == deviceName
      decreases |keywords| - i
    {
      var j :| i < j < |keywords| && keywords[j].1 == deviceName;
      i := j;
    }
    FlagsDecided(attributes, keywords, response, i);
  }

  /**
   * The `for keyword, device_name in keywords.items()` loop, writing each
   * label in place into `attributes`.
   */
  method MatchKeywords(attributes: map<string, string>, keywords: KeywordMap, response: string)
    returns (result: map<string, string>)
    ensures result == Flags(attributes, keywords, response)
  {
    result := attributes;
    for n := 0 to |keywords|
      invariant result == Flags(attributes, keywords[..n], response)
    {
      var (keyword, deviceName) := keywords[n];
      assert keywords[..n + 1][..n] == keywords[..n];
      if Contains(response, Lower(keyword)) {
        result := result[deviceName := On];
      } else {
        result := result[deviceName := Off];
      }
    }
    assert keywords[..|keywords|] == keywords;
  }
}
