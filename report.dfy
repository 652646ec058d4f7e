/** The report (fetch_participants.py, lines 102-106): for each recorded
    participant, in insertion order, one tab-separated line in the TSV file
    and one line on the console, both showing a partially hidden email. */
module Report {

  /** `email.split("@")[0]`: the text before the first `@`, or the whole
      email when it has none. */
  function LocalPart(email: string): (r: string)
    ensures r <= email
    ensures '@' !in r
    ensures |r| == |email| || email[|r|] == '@'
  {
    if email == [] || email[0] == '@' then []
    else [email[0]] + LocalPart(email[1..])
  }

  function Min(a: int, b: int): int {
    if a <= b then a else b
  }

  /** `email.split("@")[0][:4] + "*"`. What is shown is a prefix of the
      email without `@`: four characters, or the whole local part when it
      is shorter. */
  function Signature(email: string): (r: string)
    ensures 1 <= |r| <= 5 && r[|r| - 1] == '*'
    ensures r[..|r| - 1] <= email && '@' !in r[..|r| - 1]
    ensures |r| < 5 ==> |r| - 1 == |LocalPart(email)|
  {
    var local := LocalPart(email);
    var shown := local[..Min(4, |local|)];
    assert shown + "*" == shown + ['*'];
    shown + "*"
  }

  /** The console line `name (signature)`; also the third TSV field. It
      ends with the bracketed signature and adds no tab of its own. */
  function ConsoleLine(name: string, email: string): (r: string)
    ensures |r| == |name| + |Signature(email)| + 3 && r[|r| - 1] == ')'
    ensures '\t' !in name && '\t' !in email ==> '\t' !in r
  {
    name + " (" + Signature(email) + ")"
  }

  /** The console line reads: the name, a space and an opening bracket,
      the signature, and a closing bracket. */
  lemma ConsoleLineLayout(name: string, email: string)
    ensures var r := ConsoleLine(name, email);
            r[..|name|] == name && r[|name|..|name| + 2] == " (" &&
            r[|name| + 2..|r| - 1] == Signature(email) && r[|r| - 1] == ')'
  {
    var r := ConsoleLine(name, email);
    assert r == name + " (" + Signature(email) + ")";
    assert r[|name| + 2..|r| - 1] == Signature(email);
  }

  /** The TSV line `name<TAB>email<TAB>name (signature)` and its newline:
      when the name and the email hold no tab, the line without its newline
      splits at tabs into exactly the name, the email and the console line. */
  function TsvLine(name: string, email: string): (r: string)
    ensures |r| > 0 && r[|r| - 1] == '\n'
    ensures '\t' !in name && '\t' !in email ==>
              Split(r[..|r| - 1], '\t') == [name, email, ConsoleLine(name, email)]
  {
    var third := ConsoleLine(name, email);
    var r := name + "\t" + email + "\t" + third + "\n";
    if '\t' !in name && '\t' !in email then
      TsvFields(name, email, third); r
    else
      r
  }

  /** Splitting `name<TAB>email<TAB>third` at tabs. */
  lemma TsvFields(name: string, email: string, third: string)
    requires '\t' !in name && '\t' !in email && '\t' !in third
    ensures var r := name + "\t" + email + "\t" + third + "\n";
            Split(r[..|r| - 1], '\t') == [name, email, third]
  {
    var r := name + "\t" + email + "\t" + third + "\n";
    assert r[..|r| - 1] == name + ['\t'] + (email + ['\t'] + third);
    SplitField(name, email + ['\t'] + third, '\t');
    SplitField(email, third, '\t');
    SplitNoSep(third, '\t');
  }

  /** The TSV lines and the console lines for the first `n` keys. */
  function ReportLines(keys: seq<string>, names: map<string, string>, n: nat): (r: (seq<string>, seq<string>))
    requires n <= |keys|
    requires forall i :: 0 <= i < |keys| ==> keys[i] in names
    ensures |r.0| == n && |r.1| == n
  {
    if n == 0 then ([], [])
    else
      var (tsv, console) := ReportLines(keys, names, n - 1);
      (tsv + [TsvLine(names[keys[n - 1]], keys[n - 1])], console + [ConsoleLine(names[keys[n - 1]], keys[n - 1])])
  }

  lemma {:induction false} ReportLinesAt(keys: seq<string>, names: map<string, string>, n: nat, i: nat)
    requires i < n <= |keys|
    requires forall i :: 0 <= i < |keys| ==> keys[i] in names
    ensures ReportLines(keys, names, n).0[i] == TsvLine(names[keys[i]], keys[i])
    ensures ReportLines(keys, names, n).1[i] == ConsoleLine(names[keys[i]], keys[i])
  {
    if i < n - 1 {
      ReportLinesAt(keys, names, n - 1, i);
    }
  }

  /** The lines written for the participants, in the order of `keys`. */
  method WriteReport(keys: seq<string>, names: map<string, string>) returns (tsv: seq<string>, console: seq<string>)
    requires forall i :: 0 <= i < |keys| ==> keys[i] in names
    ensures |tsv| == |keys| && |console| == |keys|
    ensures forall i :: 0 <= i < |keys| ==>
              tsv[i] == TsvLine(names[keys[i]], keys[i]) && console[i] == ConsoleLine(names[keys[i]], keys[i])
  {
    tsv, console := [], [];
    for i := 0 to |keys|
      invariant (tsv, console) == ReportLines(keys, names, i)
    {
      var email, name := keys[i], names[keys[i]];
      tsv := tsv + [TsvLine(name, email)];
      console := console + [ConsoleLine(name, email)];
    }
    forall i | 0 <= i < |keys|
      ensures tsv[i] == TsvLine(names[keys[i]], keys[i]) && console[i] == ConsoleLine(names[keys[i]], keys[i])
    {
      ReportLinesAt(keys, names, |keys|, i);
    }
  }

  /** Splits a line at every occurrence of `sep`, as `str.split(sep)`. */
  function Split(s: string, sep: char): (r: seq<string>)
    ensures |r| >= 1
  {
    if s == [] then [[]]
    else if s[0] == sep then [[]] + Split(s[1..], sep)
    else
      var rest := Split(s[1..], sep);
      [[s[0]] + rest[0]] + rest[1..]
  }

  /** `LocalPart` is the first field of `Split` at `@`, as
      `email.split("@")[0]` is. */
  lemma {:induction false} LocalPartIsFirstField(email: string)
    ensures LocalPart(email) == Split(email, '@')[0]
  {
    if email != [] && email[0] != '@' {
      LocalPartIsFirstField(email[1..]);
    }
  }

  lemma {:induction false} SplitNoSep(a: string, sep: char)
    requires sep !in a
    ensures Split(a, sep) == [a]
  {
    if a != [] {
      SplitNoSep(a[1..], sep);
      assert [a[0]] + a[1..] == a;
    }
  }

  lemma {:induction false} SplitField(a: string, b: string, sep: char)
    requires sep !in a
    ensures Split(a + [sep] + b, sep) == [a] + Split(b, sep)
  {
    if a == [] {
      assert a + [sep] + b == [sep] + b;
      assert ([sep] + b)[1..] == b;
    } else {
      var s := a + [sep] + b;
      assert s[0] == a[0] && s[1..] == a[1..] + [sep] + b;
      SplitField(a[1..], b, sep);
      assert [a[0]] + a[1..] == a;
    }
  }

  /** A local part shorter than four characters is shown whole. */
  lemma SignatureShortLocalPart()
    ensures Signature("a@b.com") == "a*"
  {
    assert "a@b.com"[1..] == "@b.com";
    assert LocalPart("@b.com") == [];
    assert LocalPart("a@b.com") == "a";
  }

  /** A longer local part is cut to its first four characters. */
  lemma SignatureLongLocalPart()
    ensures Signature("alice@x") == "alic*"
  {
    assert LocalPart("@x") == [];
    assert "e@x"[1..] == "@x";
    assert LocalPart("e@x") == "e";
    assert "ce@x"[1..] == "e@x";
    assert "ice@x"[1..] == "ce@x";
    assert "lice@x"[1..] == "ice@x";
    assert "alice@x"[1..] == "lice@x";
    assert LocalPart("alice@x") == "alice";
  }

  /** The lines written for Alice with email a@x.com. */
  lemma ReportLinesExample()
    ensures TsvLine("Alice", "a@x.com") == "Alice\ta@x.com\tAlice (a*)\n"
    ensures ConsoleLine("Alice", "a@x.com") == "Alice (a*)"
  {
    assert "a@x.com"[1..] == "@x.com";
    assert LocalPart("@x.com") == [];
    assert LocalPart("a@x.com") == "a";
    assert Signature("a@x.com") == "a*";
  }
}
