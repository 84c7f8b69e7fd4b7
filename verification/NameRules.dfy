// What becomes of a player name before the engine sees it: HTML tags are cut out, and the rest is
// cut to length.

module NameRules {
  const MAX_LENGTH := 50

  // The first '>' from position i on.
  function TagEnd(s: string, i: nat): (e: nat)
    requires i <= |s|
    ensures i <= e <= |s| && '>' !in s[i..e] && (e < |s| ==> s[e] == '>')
    decreases |s| - i
  {
    if i == |s| || s[i] == '>' then i else TagEnd(s, i + 1)
  }

  // A '<' up to the next '>' is a tag; a '<' that no '>' follows is text.
  function StripTags(s: string): string
    decreases |s|
  {
    if s == "" then ""
    else
      var e := TagEnd(s, 0);
      if s[0] == '<' && e < |s| then StripTags(s[e + 1..]) else [s[0]] + StripTags(s[1..])
  }

  function Sanitized(name: string): string {
    var s := StripTags(name);
    if |s| > MAX_LENGTH then s[..MAX_LENGTH] else s
  }

  predicate TagFree(s: string) { forall i, j | 0 <= i < j < |s| && s[i] == '<' :: s[j] != '>' }

  lemma {:induction false} StripOnlyRemoves(s: string)
    ensures '>' !in s ==> '>' !in StripTags(s)
    decreases |s|
  {
    if s != "" {
      var e := TagEnd(s, 0);
      if s[0] == '<' && e < |s| {
        StripOnlyRemoves(s[e + 1..]);
      } else {
        StripOnlyRemoves(s[1..]);
      }
    }
  }

  lemma {:induction false} StripLeavesNoTag(s: string)
    ensures TagFree(StripTags(s))
    decreases |s|
  {
    if s != "" {
      var e := TagEnd(s, 0);
      if s[0] == '<' && e < |s| {
        StripLeavesNoTag(s[e + 1..]);
      } else {
        var r, rest := StripTags(s), StripTags(s[1..]);
        StripLeavesNoTag(s[1..]);
        if s[0] == '<' {
          assert '>' !in s[0..e];
          StripOnlyRemoves(s[1..]);
        }
        forall i, j | 0 <= i < j < |r| && r[i] == '<'
          ensures r[j] != '>'
        {
          assert r[j] == rest[j - 1];
          assert i > 0 ==> r[i] == rest[i - 1];
        }
      }
    }
  }

  lemma TagFreeRest(s: string)
    requires TagFree(s) && s != ""
    ensures TagFree(s[1..]) && (s[0] == '<' ==> TagEnd(s, 0) == |s|)
  {
    var e := TagEnd(s, 0);
    forall i, j | 0 <= i < j < |s[1..]| && s[1..][i] == '<'
      ensures s[1..][j] != '>'
    {
      assert s[i + 1] == '<' && s[1..][j] == s[j + 1];
    }
  }

  lemma {:induction false} NothingToStrip(s: string)
    requires TagFree(s)
    ensures StripTags(s) == s
    decreases |s|
  {
    if s != "" {
      TagFreeRest(s);
      NothingToStrip(s[1..]);
    }
  }

  lemma TagFreePrefix(s: string, n: nat)
    requires TagFree(s) && n <= |s|
    ensures TagFree(s[..n])
  {
  }

  // A sanitized name has no tag left in it and fits, so sanitizing it again changes nothing; and
  // sanitizing keeps exactly the names that were in order.
  lemma SanitizedIsClean(name: string)
    ensures TagFree(Sanitized(name)) && |Sanitized(name)| <= MAX_LENGTH
    ensures Sanitized(name) <= StripTags(name)
    ensures |Sanitized(name)| == if |StripTags(name)| > 50 then 50 else |StripTags(name)|
    ensures Sanitized(Sanitized(name)) == Sanitized(name)
    ensures Sanitized(name) == name <==> TagFree(name) && |name| <= MAX_LENGTH
  {
    StripLeavesNoTag(name);
    if |StripTags(name)| > MAX_LENGTH {
      TagFreePrefix(StripTags(name), MAX_LENGTH);
    }
    NothingToStrip(Sanitized(name));
    if TagFree(name) {
      NothingToStrip(name);
    }
  }
}
