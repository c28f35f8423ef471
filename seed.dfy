/**
 * The seeding script: it empties the category table, collects 100 unique,
 * title-cased names from a generator, and inserts them in batches of 20.
 * The random generator is an input sequence of raw names.
 */
module Seed {
  import opened Text
  import opened Store

  const TargetCount := 100
  const BatchSize := 20

  /** `toUpperCase` on one character (ASCII letters only). */
  function Upper(c: char): (r: char)
    ensures (r == ' ') <==> (c == ' ')
  {
    if 'a' <= c <= 'z' then (c as int - 32) as char else c
  }

  /** `toLowerCase` on one character (ASCII letters only). */
  function Lower(c: char): (r: char)
    ensures (r == ' ') <==> (c == ' ')
  {
    if 'A' <= c <= 'Z' then (c as int + 32) as char else c
  }

  function LowerAll(s: string): (r: string)
    ensures |r| == |s|
    ensures forall i :: 0 <= i < |s| ==> r[i] == Lower(s[i])
  {
    if s == [] then [] else [Lower(s[0])] + LowerAll(s[1..])
  }

  /** `word.charAt(0).toUpperCase() + word.slice(1).toLowerCase()`. */
  function FormatWord(w: string): string
  {
    if w == [] then [] else [Upper(w[0])] + LowerAll(w[1..])
  }

  function FormatWords(words: seq<string>): (r: seq<string>)
    ensures |r| == |words|
    ensures forall i :: 0 <= i < |words| ==> r[i] == FormatWord(words[i])
  {
    if words == [] then [] else [FormatWord(words[0])] + FormatWords(words[1..])
  }

  /** `name.split(' ').map(FormatWord).join(' ')`. */
  function FormatName(name: string): string
  {
    Join(FormatWords(Split(name, ' ')), " ")
  }

  /**
   * A character-by-character reading of the same formatting: a character
   * at the start of a word (after a space or at `atStart`) is upper-cased,
   * every other one lower-cased; spaces stay where they are.
   */
  function FormatFrom(s: string, atStart: bool): (r: string)
    ensures |r| == |s|
  {
    if s == [] then []
    else if s[0] == ' ' then [' '] + FormatFrom(s[1..], true)
    else [if atStart then Upper(s[0]) else Lower(s[0])] + FormatFrom(s[1..], false)
  }

  lemma {:induction false} JoinConsHead(a: string, b: string, rest: seq<string>)
    ensures Join([a + b] + rest, " ") == a + Join([b] + rest, " ")
  {
    if rest != [] {
      assert ([a + b] + rest)[1..] == rest;
      assert ([b] + rest)[1..] == rest;
    }
  }

  /** The two readings agree on `s` from the start of a word, and in the middle of one. */
  predicate AgreeOn(s: string)
  {
    && FormatName(s) == FormatFrom(s, true)
    && Join([LowerAll(Split(s, ' ')[0])] + FormatWords(Split(s, ' ')[1..]), " ") == FormatFrom(s, false)
  }

  lemma AgreeAfterSpace(s: string)
    requires s != [] && s[0] == ' ' && AgreeOn(s[1..])
    ensures AgreeOn(s)
  {
    var rest := Split(s[1..], ' ');
    assert Split(s, ' ') == [""] + rest;
    assert FormatWords(Split(s, ' ')) == [""] + FormatWords(rest);
    assert Split(s, ' ')[1..] == rest;
    assert Join([""] + FormatWords(rest), " ") == " " + Join(FormatWords(rest), " ");
  }

  lemma AgreeAfterLetter(s: string)
    requires s != [] && s[0] != ' ' && AgreeOn(s[1..])
    ensures AgreeOn(s)
  {
    var rest := Split(s[1..], ' ');
    var tailFormatted := FormatWords(rest[1..]);
    var first := [s[0]] + rest[0];
    assert Split(s, ' ') == [first] + rest[1..];
    assert Split(s, ' ')[1..] == rest[1..];
    assert first[1..] == rest[0];
    assert FormatWords(Split(s, ' ')) == [[Upper(s[0])] + LowerAll(rest[0])] + tailFormatted;
    JoinConsHead([Upper(s[0])], LowerAll(rest[0]), tailFormatted);
    assert FormatWords(rest) == [FormatWord(rest[0])] + tailFormatted;
    assert LowerAll(first) == [Lower(s[0])] + LowerAll(rest[0]);
    JoinConsHead([Lower(s[0])], LowerAll(rest[0]), tailFormatted);
  }

  /** The split/map/join formatting is the character-by-character one. */
  lemma {:induction false} FormatNameIsCharwise(s: string)
    ensures FormatName(s) == FormatFrom(s, true)
    ensures AgreeOn(s)
  {
    if s != [] {
      FormatNameIsCharwise(s[1..]);
      if s[0] == ' ' {
        AgreeAfterSpace(s);
      } else {
        AgreeAfterLetter(s);
      }
    }
  }

  lemma {:induction false} FormatFromIdempotent(s: string, atStart: bool)
    ensures FormatFrom(FormatFrom(s, atStart), atStart) == FormatFrom(s, atStart)
  {
    if s != [] {
      var r := FormatFrom(s, atStart);
      if s[0] == ' ' {
        FormatFromIdempotent(s[1..], true);
        assert r[1..] == FormatFrom(s[1..], true);
      } else {
        FormatFromIdempotent(s[1..], false);
        assert r[1..] == FormatFrom(s[1..], false);
      }
    }
  }

  /** Formatting a formatted name changes nothing. */
  lemma FormatNameIdempotent(s: string)
    ensures FormatName(FormatName(s)) == FormatName(s)
  {
    FormatNameIsCharwise(s);
    FormatNameIsCharwise(FormatName(s));
    FormatFromIdempotent(s, true);
  }

  /** Formatting keeps the length and puts spaces exactly where they were. */
  lemma FormatNameKeepsSpaces(s: string)
    ensures |FormatName(s)| == |s|
    ensures forall i :: 0 <= i < |s| ==> (FormatName(s)[i] == ' ' <==> s[i] == ' ')
  {
    FormatNameIsCharwise(s);
    FormatFromKeepsSpaces(s, true);
  }

  lemma {:induction false} FormatFromKeepsSpaces(s: string, atStart: bool)
    ensures forall i :: 0 <= i < |s| ==> (FormatFrom(s, atStart)[i] == ' ' <==> s[i] == ' ')
  {
    if s != [] {
      FormatFromKeepsSpaces(s[1..], s[0] == ' ');
      var r := FormatFrom(s, atStart);
      forall i | 1 <= i < |s| ensures (r[i] == ' ' <==> s[i] == ' ') {
        assert r[i] == FormatFrom(s[1..], s[0] == ' ')[i - 1];
      }
    }
  }

  /**
   * The names the uniqueness loop keeps from a run of the generator: each
   * formatted name that is new and longer than 2 characters, in order.
   */
  function Accepted(candidates: seq<string>): (names: seq<string>)
    ensures NoDuplicates(names)
    ensures |names| <= |candidates|
  {
    if candidates == [] then []
    else
      var init := candidates[..|candidates| - 1];
      var prev := Accepted(init);
      var f := FormatName(candidates[|candidates| - 1]);
      if f !in prev && Utf16Length(f) > 2 then prev + [f] else prev
  }

  /** Every kept name is longer than 2 characters and already formatted. */
  lemma {:induction false} AcceptedAreFormatted(candidates: seq<string>)
    ensures forall x :: x in Accepted(candidates) ==> Utf16Length(x) > 2 && FormatName(x) == x
  {
    if candidates != [] {
      AcceptedAreFormatted(candidates[..|candidates| - 1]);
      FormatNameIdempotent(candidates[|candidates| - 1]);
    }
  }

  /** Every candidate whose formatted name is long enough is kept. */
  lemma {:induction false} AcceptedIsComplete(candidates: seq<string>)
    ensures forall c :: c in candidates && Utf16Length(FormatName(c)) > 2 ==> FormatName(c) in Accepted(candidates)
  {
    if candidates != [] {
      var init := candidates[..|candidates| - 1];
      AcceptedIsComplete(init);
      assert candidates == init + [candidates[|candidates| - 1]];
      AcceptedGrows(candidates, |candidates| - 1);
    }
  }

  /** A longer run of the generator keeps everything a shorter one kept, in the same order. */
  lemma {:induction false} AcceptedGrows(candidates: seq<string>, i: nat)
    requires i <= |candidates|
    ensures Accepted(candidates[..i]) <= Accepted(candidates)
  {
    if i < |candidates| {
      var init := candidates[..|candidates| - 1];
      AcceptedGrows(init, i);
      assert init[..i] == candidates[..i];
    } else {
      assert candidates[..i] == candidates;
    }
  }

  /** One more candidate is kept exactly when its formatted name is new and longer than 2. */
  lemma AcceptedStep(candidates: seq<string>, i: nat)
    requires i < |candidates|
    ensures var prev, f := Accepted(candidates[..i]), FormatName(candidates[i]);
      Accepted(candidates[..i + 1]) == if f !in prev && Utf16Length(f) > 2 then prev + [f] else prev
  {
    var next := candidates[..i + 1];
    assert next[..|next| - 1] == candidates[..i];
    assert next[|next| - 1] == candidates[i];
  }

  /** Where the loop stops, its names are a prefix of `Accepted` of the whole run, 100 of them or all. */
  lemma StoppedEarlyOrExhausted(candidates: seq<string>, consumed: nat)
    requires consumed <= |candidates|
    requires |Accepted(candidates[..consumed])| <= TargetCount
    requires |Accepted(candidates[..consumed])| == TargetCount || consumed == |candidates|
    ensures Accepted(candidates[..consumed]) <= Accepted(candidates)
    ensures |Accepted(candidates[..consumed])|
      == if |Accepted(candidates)| < TargetCount then |Accepted(candidates)| else TargetCount
  {
    AcceptedGrows(candidates, consumed);
    if consumed == |candidates| {
      assert candidates[..consumed] == candidates;
    }
  }

  /**
   * The `while (categoryNames.size < 100)` loop over a finite run of the
   * generator: it stops at 100 names or when the run is used up.
   */
  method CollectNames(candidates: seq<string>) returns (names: seq<string>, consumed: nat)
    ensures consumed <= |candidates|
    ensures names == Accepted(candidates[..consumed])
    ensures names <= Accepted(candidates)
    ensures |names| == TargetCount || consumed == |candidates|
    ensures |names| == if |Accepted(candidates)| < TargetCount then |Accepted(candidates)| else TargetCount
  {
    var seen: set<string> := {};
    names, consumed := [], 0;
    while |seen| < TargetCount && consumed < |candidates|
      invariant consumed <= |candidates|
      invariant names == Accepted(candidates[..consumed])
      invariant forall x :: x in seen <==> x in names
      invariant |seen| == |names| <= TargetCount
    {
      var formatted := FormatName(candidates[consumed]);
      AcceptedStep(candidates, consumed);
      if formatted !in seen && Utf16Length(formatted) > 2 {
        seen := seen + {formatted};
        names := names + [formatted];
      }
      consumed := consumed + 1;
    }
    StoppedEarlyOrExhausted(candidates, consumed);
  }

  /** The end of the batch that starts at `i`: `Math.min(i + 20, n)`. */
  function BatchEnd(i: int, n: int): int
  {
    if i + BatchSize < n then i + BatchSize else n
  }

  /** The batches of `categories.slice(i, i + 20)` for `i = 0, 20, 40, ...`. */
  function Chunks(s: seq<string>): (r: seq<seq<string>>)
    ensures forall k :: 0 <= k < |r| ==> 1 <= |r[k]| <= BatchSize
    ensures |r| == (|s| + BatchSize - 1) / BatchSize
  {
    if s == [] then []
    else if |s| <= BatchSize then [s]
    else [s[..BatchSize]] + Chunks(s[BatchSize..])
  }

  function Flatten(parts: seq<seq<string>>): seq<string>
  {
    if parts == [] then [] else parts[0] + Flatten(parts[1..])
  }

  /** The batches, laid end to end, are the list again. */
  lemma {:induction false} ChunksFlatten(s: seq<string>)
    ensures Flatten(Chunks(s)) == s
  {
    if |s| > BatchSize {
      ChunksFlatten(s[BatchSize..]);
      assert s[..BatchSize] + s[BatchSize..] == s;
    }
  }

  /** Batch `k` is the slice from `20 k` to `min(20 k + 20, n)`. */
  lemma {:induction false} ChunkAt(s: seq<string>, k: nat)
    requires k < |Chunks(s)|
    ensures k * BatchSize < |s|
    ensures Chunks(s)[k] == s[k * BatchSize..BatchEnd(k * BatchSize, |s|)]
  {
    if k > 0 {
      ChunkAt(s[BatchSize..], k - 1);
    }
  }

  /** A hundred names make five full batches. */
  lemma HundredNamesFiveBatches(s: seq<string>)
    requires |s| == TargetCount
    ensures |Chunks(s)| == 5
    ensures forall k :: 0 <= k < 5 ==> |Chunks(s)[k]| == BatchSize
  {
    forall k | 0 <= k < 5 ensures |Chunks(s)[k]| == BatchSize {
      ChunkAt(s, k);
    }
  }

  /** The numbers the batch log line reports: `i + 1` to `min(i + 20, n)`. */
  datatype LogLine = LogLine(first: int, last: int)

  function Rows(names: seq<string>, mint: nat -> string): (rows: seq<Category>)
    ensures |rows| == |names|
    ensures forall k :: 0 <= k < |names| ==> rows[k] == Category(mint(k), names[k])
  {
    seq(|names|, k requires 0 <= k < |names| => Category(mint(k), names[k]))
  }

  /** The table after `createMany` of `rows` with duplicates skipped. */
  function Inserted(existing: seq<Category>, rows: seq<Category>): seq<Category>
  {
    existing + NewCategories(existing, rows)
  }

  /** Inserting two runs of rows one after the other inserts their concatenation. */
  lemma {:induction false} InsertedAppend(e: seq<Category>, a: seq<Category>, b: seq<Category>)
    ensures Inserted(e, a + b) == Inserted(Inserted(e, a), b)
    decreases a
  {
    if a == [] {
      assert a + b == b;
      assert NewCategories(e, a) == [];
      assert Inserted(e, a) == e;
    } else {
      var ab := a + b;
      assert ab[0] == a[0] && ab[1..] == a[1..] + b;
      if IsCategoryId(e, a[0].id) {
        InsertedAppend(e, a[1..], b);
      } else {
        var e1 := e + [a[0]];
        calc {
          Inserted(e, ab);
          e + ([a[0]] + NewCategories(e1, a[1..] + b));
          { assert e + ([a[0]] + NewCategories(e1, a[1..] + b)) == e1 + NewCategories(e1, a[1..] + b); }
          Inserted(e1, a[1..] + b);
          { InsertedAppend(e1, a[1..], b); }
          Inserted(Inserted(e1, a[1..]), b);
          { assert Inserted(e1, a[1..]) == e + ([a[0]] + NewCategories(e1, a[1..])); }
          Inserted(Inserted(e, a), b);
        }
      }
    }
  }

  /** Rows with distinct, new ids are all inserted. */
  lemma {:induction false} NewCategoriesAllFresh(e: seq<Category>, rows: seq<Category>)
    requires forall i, j :: 0 <= i < j < |rows| ==> rows[i].id != rows[j].id
    requires forall i :: 0 <= i < |rows| ==> !IsCategoryId(e, rows[i].id)
    ensures NewCategories(e, rows) == rows
    decreases rows
  {
    if rows != [] {
      forall i | 0 <= i < |rows[1..]| ensures !IsCategoryId(e + [rows[0]], rows[1..][i].id) {
        assert rows[1..][i] == rows[i + 1];
      }
      NewCategoriesAllFresh(e + [rows[0]], rows[1..]);
      assert [rows[0]] + rows[1..] == rows;
    }
  }

  /** With an id generator that never repeats, every collected name is inserted, in order. */
  lemma SeedInsertsEveryName(names: seq<string>, mint: nat -> string)
    requires forall i, j :: 0 <= i < j < |names| ==> mint(i) != mint(j)
    ensures NewCategories([], Rows(names, mint)) == Rows(names, mint)
  {
    NewCategoriesAllFresh([], Rows(names, mint));
  }

  /** Inserting `rows[..i]` and then `rows[i..j]` inserts `rows[..j]`. */
  lemma InsertedPrefix(e: seq<Category>, rows: seq<Category>, i: nat, j: nat)
    requires i <= j <= |rows|
    ensures Inserted(e, rows[..j]) == Inserted(Inserted(e, rows[..i]), rows[i..j])
  {
    InsertedAppend(e, rows[..i], rows[i..j]);
    assert rows[..i] + rows[i..j] == rows[..j];
  }

  /** A batch starts at `20 b` while `20 b < n`, and is that slice. */
  lemma NextChunk(s: seq<string>, b: nat)
    requires b * BatchSize < |s|
    ensures b < |Chunks(s)|
    ensures Chunks(s)[b] == s[b * BatchSize..BatchEnd(b * BatchSize, |s|)]
  {
    ChunkAt(s, b);
  }

  /** The loop stops after `ceil(n / 20)` batches. */
  lemma ChunkCount(n: nat, b: nat)
    requires n <= b * BatchSize < n + BatchSize
    ensures b == (n + BatchSize - 1) / BatchSize
  {
  }

  /**
   * The `for (let i = 0; i < n; i += 20)` loop of `main()`: insert each
   * batch with `createMany` and log its range. `mint(k)` is the id the
   * database generates for the k-th name.
   */
  method InsertBatches(db: Db, names: seq<string>, mint: nat -> string)
    returns (batches: seq<seq<string>>, log: seq<LogLine>)
    modifies db
    ensures batches == Chunks(names)
    ensures |log| == |batches|
    ensures forall k :: 0 <= k < |log| ==>
      log[k] == LogLine(k * BatchSize + 1, BatchEnd(k * BatchSize, |names|))
    ensures db.categories == Inserted(old(db.categories), Rows(names, mint))
    ensures db.users == old(db.users) && db.interests == old(db.interests)
  {
    var rows := Rows(names, mint);
    ghost var chunks := Chunks(names);
    ghost var count := |chunks|;
    batches, log := [], [];
    var i := 0;
    while i < |names|
      invariant i == |batches| * BatchSize && i < |names| + BatchSize
      invariant |batches| <= count
      invariant batches == chunks[..|batches|]
      invariant |log| == |batches|
      invariant forall k :: 0 <= k < |log| ==>
        log[k] == LogLine(k * BatchSize + 1, BatchEnd(k * BatchSize, |names|))
      invariant db.categories == Inserted(old(db.categories), rows[..BatchEnd(i - BatchSize, |names|)])
      invariant db.users == old(db.users) && db.interests == old(db.interests)
    {
      var end := BatchEnd(i, |names|);
      var batch := names[i..end];
      var _ := db.CreateManyCategories(rows[i..end]);
      InsertedPrefix(old(db.categories), rows, i, end);
      NextChunk(names, |batches|);
      batches := batches + [batch];
      log := log + [LogLine(i + 1, end)];
      i := i + BatchSize;
    }
    ChunkCount(|names|, |batches|);
    assert rows[..|names|] == rows;
  }

  /**
   * `main()`: delete every category, collect the names, then insert them
   * batch by batch.
   */
  method SeedCatalogue(db: Db, candidates: seq<string>, mint: nat -> string)
    returns (names: seq<string>, batches: seq<seq<string>>, log: seq<LogLine>)
    modifies db
    ensures names <= Accepted(candidates)
    ensures |names| == if |Accepted(candidates)| < TargetCount then |Accepted(candidates)| else TargetCount
    ensures batches == Chunks(names)
    ensures |log| == |batches|
    ensures forall k :: 0 <= k < |log| ==>
      log[k] == LogLine(k * BatchSize + 1, BatchEnd(k * BatchSize, |names|))
    ensures db.categories == NewCategories([], Rows(names, mint))
    ensures db.users == old(db.users) && db.interests.Keys == old(db.interests).Keys
    ensures forall u :: u in db.interests ==> db.interests[u] == {}
  {
    db.DeleteAllCategories();
    var consumed;
    names, consumed := CollectNames(candidates);
    batches, log := InsertBatches(db, names, mint);
  }
}
