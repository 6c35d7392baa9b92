/** The service filter of PasswordManagerApp::view_dashboard (src/main.rs):
    the sidebar lists, with their positions, the entries whose lower-cased
    service contains the lower-cased search query. */
module Dashboard {
  import opened Models

  /** Lower-casing of one character, on the ASCII range. */
  function LowerChar(c: char): char {
    if 'A' <= c <= 'Z' then (c as int - 'A' as int + 'a' as int) as char else c
  }

  /** str::to_lowercase, character by character. */
  function ToLowercase(s: string): (r: string)
    ensures |r| == |s|
    ensures forall i :: 0 <= i < |s| ==> r[i] == LowerChar(s[i])
  {
    seq(|s|, i requires 0 <= i < |s| => LowerChar(s[i]))
  }

  /** `t` occurs in `s` starting at position `k`. */
  predicate OccursAt(s: string, t: string, k: int) {
    0 <= k && k + |t| <= |s| && s[k..k + |t|] == t
  }

  /** str::contains: scan the start positions from left to right. */
  function Contains(s: string, t: string): (b: bool)
    ensures |t| == 0 ==> b
    ensures b ==> |t| <= |s|
    decreases |s|
  {
    if |t| > |s| then false
    else if s[..|t|] == t then true
    else Contains(s[1..], t)
  }

  /** Contains decides substring occurrence. */
  lemma {:induction false} ContainsIffOccurs(s: string, t: string)
    ensures Contains(s, t) <==> exists k :: OccursAt(s, t, k)
    decreases |s|
  {
    if |t| > |s| {
    } else if s[..|t|] == t {
      assert OccursAt(s, t, 0);
    } else {
      ContainsIffOccurs(s[1..], t);
      if Contains(s[1..], t) {
        var k :| OccursAt(s[1..], t, k);
        assert s[k + 1..k + 1 + |t|] == s[1..][k..k + |t|];
        assert OccursAt(s, t, k + 1);
      }
      if k :| OccursAt(s, t, k) {
        assert k != 0;
        assert s[1..][k - 1..k - 1 + |t|] == s[k..k + |t|];
        assert OccursAt(s[1..], t, k - 1);
      }
    }
  }

  /** Whether the sidebar shows an entry for the query. */
  predicate Matches(e: PasswordEntry, query: string): (b: bool)
    ensures query == "" ==> b
    ensures b ==> |query| <= |e.service|
  {
    Contains(ToLowercase(e.service), ToLowercase(query))
  }

  /** The positions the sidebar lists (the `i` of each SelectService(i)
      button), in list order. */
  function SearchResults(entries: seq<PasswordEntry>, query: string): (r: seq<nat>)
    ensures forall j :: 0 <= j < |r| ==> r[j] < |entries| && Matches(entries[r[j]], query)
    ensures forall i :: 0 <= i < |entries| && Matches(entries[i], query) ==> i in r
    ensures forall j, k :: 0 <= j < k < |r| ==> r[j] < r[k]
  {
    if entries == [] then []
    else
      var n := |entries| - 1;
      SearchResults(entries[..n], query) + (if Matches(entries[n], query) then [n] else [])
  }

  /** An empty query lists every entry. */
  lemma {:induction false} EmptyQueryListsAll(entries: seq<PasswordEntry>)
    ensures SearchResults(entries, "") == seq(|entries|, i => i)
  {
    if entries != [] {
      var n := |entries| - 1;
      EmptyQueryListsAll(entries[..n]);
      assert ToLowercase("") == "";
      assert Matches(entries[n], "");
    }
  }
}
