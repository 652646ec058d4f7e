/** The participant extractor (fetch_participants.py, lines 87-98): the raw
    pages are read back in file order and their participants folded, in list
    order, into an insertion-ordered dictionary from email to name. An entry
    is skipped when its email is missing or empty, when its email is already
    a key, or when its name is missing or empty. */
module Extraction {
  import opened Records

  /** All participant entries of the pages: pages in file order,
      participants in list order inside each page. */
  function Entries(pages: seq<Page>): seq<Participant>
  {
    if pages == [] then [] else Entries(pages[..|pages| - 1]) + pages[|pages| - 1].participants
  }

  /** An entry that can be recorded: non-empty email and non-empty name. */
  predicate Qualifies(p: Participant) {
    Truthy(p.email) && Truthy(p.userName)
  }

  /** A qualifying entry for the email `e`. */
  predicate Matches(p: Participant, e: string) {
    Qualifies(p) && p.email.value == e
  }

  /** The dictionary as a value: its keys in insertion order and the map. */
  datatype Dedup = Dedup(keys: seq<string>, names: map<string, string>)

  /** A dictionary's keys are distinct and are exactly the map's keys. */
  ghost predicate WellFormed(d: Dedup) {
    (forall i, j :: 0 <= i < j < |d.keys| ==> d.keys[i] != d.keys[j]) &&
    (forall e :: e in d.names <==> e in d.keys)
  }

  /** One iteration of the inner loop, with the checks in the script's order.
      Each check only skips the entry, so an entry is recorded exactly when its
      email is non-empty and not yet a key and its name is non-empty, and
      then its email goes last. */
  function Step(d: Dedup, p: Participant): (r: Dedup)
    ensures r == if Qualifies(p) && p.email.value !in d.names
                 then Dedup(d.keys + [p.email.value], d.names[p.email.value := p.userName.value])
                 else d
  {
    if !Truthy(p.email) || p.email.value in d.names then d
    else if !Truthy(p.userName) then d
    else Dedup(d.keys + [p.email.value], d.names[p.email.value := p.userName.value])
  }

  /** The dictionary after folding all of `entries`, from the empty one. */
  function Extracted(entries: seq<Participant>): (d: Dedup)
    ensures WellFormed(d)
    ensures forall e :: e in d.names ==> e != "" && d.names[e] != ""
  {
    if entries == [] then Dedup([], map[])
    else Step(Extracted(entries[..|entries| - 1]), entries[|entries| - 1])
  }

  /** The index of the first qualifying entry for `e`, or `|entries|` when
      there is none. */
  function FirstMatch(entries: seq<Participant>, e: string): (r: nat)
    ensures r <= |entries|
    ensures r < |entries| ==> Matches(entries[r], e)
    ensures forall j :: 0 <= j < r ==> !Matches(entries[j], e)
  {
    if entries == [] then 0
    else
      var n := |entries| - 1;
      var r := FirstMatch(entries[..n], e);
      assert forall j :: 0 <= j < r ==> entries[..n][j] == entries[j];
      if r < n then r else if Matches(entries[n], e) then n else n + 1
  }

  lemma EntriesSnoc(pages: seq<Page>, i: nat)
    requires i < |pages|
    ensures Entries(pages[..i + 1]) == Entries(pages[..i]) + pages[i].participants
  {
    assert pages[..i + 1][..i] == pages[..i];
  }

  lemma ExtractedSnoc(s: seq<Participant>, p: Participant)
    ensures Extracted(s + [p]) == Step(Extracted(s), p)
  {
    assert (s + [p])[..|s|] == s;
  }

  lemma FirstMatchSnoc(s: seq<Participant>, p: Participant, e: string)
    ensures FirstMatch(s + [p], e) ==
            if FirstMatch(s, e) < |s| then FirstMatch(s, e)
            else if Matches(p, e) then |s| else |s| + 1
  {
    assert (s + [p])[..|s|] == s;
  }

  /** An email is a key exactly when some entry qualifies for it. */
  lemma {:induction false} ExtractedKeys(entries: seq<Participant>)
    ensures forall e :: e in Extracted(entries).names <==> FirstMatch(entries, e) < |entries|
  {
    if entries != [] {
      var n := |entries| - 1;
      var s, p := entries[..n], entries[n];
      assert entries == s + [p];
      ExtractedKeys(s);
      ExtractedSnoc(s, p);
      forall e
        ensures e in Extracted(entries).names <==> FirstMatch(entries, e) < |entries|
      {
        FirstMatchSnoc(s, p, e);
      }
    }
  }

  /** The name recorded for an email is that of its first qualifying entry. */
  lemma {:induction false} ExtractedNames(entries: seq<Participant>)
    ensures var d := Extracted(entries);
            forall e :: e in d.names ==>
              FirstMatch(entries, e) < |entries| && d.names[e] == entries[FirstMatch(entries, e)].userName.value
  {
    if entries != [] {
      var n := |entries| - 1;
      var s, p := entries[..n], entries[n];
      assert entries == s + [p];
      ExtractedNames(s);
      ExtractedKeys(s);
      ExtractedSnoc(s, p);
      var d := Extracted(entries);
      forall e | e in d.names
        ensures FirstMatch(entries, e) < |entries| && d.names[e] == entries[FirstMatch(entries, e)].userName.value
      {
        FirstMatchSnoc(s, p, e);
        if e in Extracted(s).names {
          assert entries[FirstMatch(s, e)] == s[FirstMatch(s, e)];
        }
      }
    }
  }

  /** Keys are in the order of their emails' first qualifying entries. */
  lemma {:induction false} ExtractedOrder(entries: seq<Participant>)
    ensures var d := Extracted(entries);
            forall a, b :: 0 <= a < b < |d.keys| ==>
              FirstMatch(entries, d.keys[a]) < FirstMatch(entries, d.keys[b])
  {
    if entries != [] {
      var n := |entries| - 1;
      var s, p := entries[..n], entries[n];
      assert entries == s + [p];
      ExtractedOrder(s);
      ExtractedKeys(s);
      ExtractedSnoc(s, p);
      var d0, d := Extracted(s), Extracted(entries);
      forall e | e in d0.names
        ensures FirstMatch(entries, e) == FirstMatch(s, e) < n
      {
        FirstMatchSnoc(s, p, e);
      }
      if d != d0 {
        var e := p.email.value;
        assert d.keys == d0.keys + [e] && e !in d0.names;
        FirstMatchSnoc(s, p, e);
        assert FirstMatch(entries, e) == n;
      }
      forall a, b | 0 <= a < b < |d.keys|
        ensures FirstMatch(entries, d.keys[a]) < FirstMatch(entries, d.keys[b])
      {
        assert d.keys[a] == d0.keys[a] && d.keys[a] in d0.names;
        if b < |d0.keys| {
          assert d.keys[b] == d0.keys[b] && d.keys[b] in d0.names;
        }
      }
    }
  }

  /** The key set is exactly the emails that have a qualifying entry. */
  lemma ExtractedKeySet(entries: seq<Participant>, e: string)
    ensures e in Extracted(entries).names <==>
            exists i :: 0 <= i < |entries| && Matches(entries[i], e)
  {
    ExtractedKeys(entries);
  }

  /** First wins: the name kept for an email is that of its first qualifying
      entry, and no later entry displaces it. */
  lemma ExtractedFirstWins(entries: seq<Participant>, i: nat)
    requires i < |entries| && Qualifies(entries[i])
    requires forall j :: 0 <= j < i ==> !Matches(entries[j], entries[i].email.value)
    ensures var d := Extracted(entries);
            entries[i].email.value in d.names &&
            d.names[entries[i].email.value] == entries[i].userName.value
  {
    ExtractedKeys(entries);
    ExtractedNames(entries);
    var e := entries[i].email.value;
    var r := FirstMatch(entries, e);
    assert r <= i;
    assert r == i;
  }

  /** Entries appended later never change the name of a recorded email nor
      reorder the keys already present. */
  lemma {:induction false} ExtractedExtends(s: seq<Participant>, t: seq<Participant>)
    ensures Extracted(s).keys <= Extracted(s + t).keys
    ensures forall e :: e in Extracted(s).names ==>
              e in Extracted(s + t).names && Extracted(s + t).names[e] == Extracted(s).names[e]
    decreases |t|
  {
    if t == [] {
      assert s + t == s;
    } else {
      var n := |t| - 1;
      ExtractedExtends(s, t[..n]);
      assert s + t == (s + t[..n]) + [t[n]];
      ExtractedSnoc(s + t[..n], t[n]);
    }
  }

  /** The same fold with the name checked before the email. */
  function StepNameFirst(d: Dedup, p: Participant): Dedup {
    if !Truthy(p.userName) then d
    else if !Truthy(p.email) || p.email.value in d.names then d
    else Dedup(d.keys + [p.email.value], d.names[p.email.value := p.userName.value])
  }

  function ExtractedNameFirst(entries: seq<Participant>): Dedup {
    if entries == [] then Dedup([], map[])
    else StepNameFirst(ExtractedNameFirst(entries[..|entries| - 1]), entries[|entries| - 1])
  }

  /** Entry by entry, the two orders of the checks agree: each check only
      skips the entry, so either way an entry is recorded exactly when its
      email is non-empty and new and its name is non-empty. */
  lemma StepOrderIrrelevant(d: Dedup, p: Participant)
    ensures StepNameFirst(d, p) == Step(d, p)
  {
  }

  /** Checking the name before or after the duplicate test gives the same
      dictionary for every list of entries. */
  lemma {:induction false} CheckOrderIrrelevant(entries: seq<Participant>)
    ensures ExtractedNameFirst(entries) == Extracted(entries)
  {
    if entries != [] {
      CheckOrderIrrelevant(entries[..|entries| - 1]);
      StepOrderIrrelevant(ExtractedNameFirst(entries[..|entries| - 1]), entries[|entries| - 1]);
    }
  }

  /** An entry without a name inserts nothing, and a later named entry for
      the same email is then kept. */
  lemma NamelessThenNamed(e: string, n: string)
    requires e != "" && n != ""
    ensures Extracted([Participant(Some(e), None)]) == Dedup([], map[])
    ensures Extracted([Participant(Some(e), None), Participant(Some(e), Some(n))]) == Dedup([e], map[e := n])
  {
    ExtractedSnoc([], Participant(Some(e), None));
    ExtractedSnoc([Participant(Some(e), None)], Participant(Some(e), Some(n)));
  }

  /** Two pages, a repeated email on the second: the first name stays and the
      order is that of first appearance. */
  lemma TwoPageScenario()
    ensures var pages := [
              Page([Participant(Some("a@x.com"), Some("Alice"))], Some("t1")),
              Page([Participant(Some("a@x.com"), Some("Alice2")), Participant(Some("b@y.com"), Some("Bob"))], None)];
            Extracted(Entries(pages)) ==
              Dedup(["a@x.com", "b@y.com"], map["a@x.com" := "Alice", "b@y.com" := "Bob"])
  {
    var p1 := Participant(Some("a@x.com"), Some("Alice"));
    var p2 := Participant(Some("a@x.com"), Some("Alice2"));
    var p3 := Participant(Some("b@y.com"), Some("Bob"));
    var pages := [Page([p1], Some("t1")), Page([p2, p3], None)];
    assert pages[..1][..0] == [];
    assert pages[..2][..1] == pages[..1];
    assert pages[..2] == pages;
    assert Entries(pages[..1]) == [p1];
    assert Entries(pages) == [p1, p2, p3];
    ExtractedSnoc([], p1);
    assert Extracted([p1]) == Dedup(["a@x.com"], map["a@x.com" := "Alice"]);
    ExtractedSnoc([p1], p2);
    assert Extracted([p1, p2]) == Extracted([p1]);
    ExtractedSnoc([p1, p2], p3);
    assert [p1, p2] + [p3] == [p1, p2, p3];
    assert Extracted([p1, p2, p3]) == Dedup(["a@x.com", "b@y.com"], map["a@x.com" := "Alice", "b@y.com" := "Bob"]);
  }

  /** The `participants` dictionary of the script, updated in place. */
  class ParticipantMap {
    var keys: seq<string>
    var names: map<string, string>

    ghost predicate Valid()
      reads this
    {
      WellFormed(Dedup(keys, names))
    }

    function Items(): Dedup
      reads this
    {
      Dedup(keys, names)
    }

    constructor ()
      ensures Valid() && keys == [] && names == map[]
    {
      keys, names := [], map[];
    }

    /** `participants[email] = name`: a new key goes to the end, an
        existing key keeps its place and takes the new name. */
    method Put(email: string, name: string)
      requires Valid()
      modifies this
      ensures Valid()
      ensures names == old(names)[email := name]
      ensures keys == if email in old(names) then old(keys) else old(keys) + [email]
    {
      if email !in names {
        keys := keys + [email];
      }
      names := names[email := name];
    }
  }

  /** The extraction loop over the pages read back from the raw file. */
  method ExtractParticipants(pages: seq<Page>) returns (m: ParticipantMap)
    ensures fresh(m) && m.Valid()
    ensures m.Items() == Extracted(Entries(pages))
  {
    m := new ParticipantMap();
    for i := 0 to |pages|
      invariant fresh(m) && m.Valid()
      invariant m.Items() == Extracted(Entries(pages[..i]))
    {
      var participants := pages[i].participants;
      assert Entries(pages[..i]) + participants[..0] == Entries(pages[..i]);
      for j := 0 to |participants|
        invariant fresh(m) && m.Valid()
        invariant m.Items() == Extracted(Entries(pages[..i]) + participants[..j])
      {
        var p := participants[j];
        ghost var done := Entries(pages[..i]) + participants[..j];
        assert Entries(pages[..i]) + participants[..j + 1] == done + [p];
        ExtractedSnoc(Entries(pages[..i]) + participants[..j], p);
        var email := p.email;
        if !(email.Some? && email.value != "") || email.value in m.names {
          continue;
        }
        var name := p.userName;
        if !(name.Some? && name.value != "") {
          continue;
        }
        m.Put(email.value, name.value);
      }
      assert participants[..|participants|] == participants;
      EntriesSnoc(pages, i);
    }
    assert pages[..|pages|] == pages;
  }
}
