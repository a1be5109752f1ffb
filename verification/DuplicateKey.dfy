/**
 Telling duplicate-key errors apart: dupEntryOnKey of mysql/errors.go. MySQL reports error 1062 with the
 text "Duplicate entry '<value>' for key '<table>.<index>'", and the code looks for the index name
 anywhere in that text, the value included.
 */
module DuplicateKey {

  predicate OccursAt(s: string, sub: string, i: nat) {
    i + |sub| <= |s| && s[i..i + |sub|] == sub
  }

  /** strings.Contains */
  predicate Contains(s: string, sub: string) {
    exists i: nat | i <= |s| :: OccursAt(s, sub, i)
  }

  function Message(value: string, index: string): string {
    "Duplicate entry " + "'" + (value + "'" + (" for key " + "'" + (index + "'" + "")))
  }

  /** dupEntryOnKey, on an error that is a 1062. */
  predicate DupEntryOnKey(message: string, name: string) { Contains(message, name) }

  lemma OccurrenceReads(s: string, sub: string, i: nat, k: nat)
    requires OccursAt(s, sub, i) && k < |sub|
    ensures s[i + k] == sub[k]
  {
    assert s[i..i + |sub|][k] == s[i + k];
  }

  /** A name does not straddle a character it does not have. */
  lemma ContainsAround(a: string, c: char, b: string, sub: string)
    requires c !in sub
    ensures Contains(a + [c] + b, sub) <==> Contains(a, sub) || Contains(b, sub)
  {
    var s := a + [c] + b;
    if i: nat :| i <= |a| && OccursAt(a, sub, i) {
      assert s[..|a|] == a && s[i..i + |sub|] == a[i..i + |sub|];
      assert OccursAt(s, sub, i);
    }
    if i: nat :| i <= |b| && OccursAt(b, sub, i) {
      var j := |a| + 1 + i;
      assert s[|a| + 1..] == b && s[j..j + |sub|] == b[i..i + |sub|];
      assert OccursAt(s, sub, j);
    }
    if i: nat :| i <= |s| && OccursAt(s, sub, i) {
      Beside(a, c, b, sub, i);
    }
  }

  lemma Beside(a: string, c: char, b: string, sub: string, i: nat)
    requires c !in sub && OccursAt(a + [c] + b, sub, i)
    ensures Contains(a, sub) || Contains(b, sub)
  {
    var s := a + [c] + b;
    if i <= |a| {
      if i + |sub| > |a| {
        OccurrenceReads(s, sub, i, |a| - i);
        assert false;
      }
      assert s[..|a|] == a && a[i..i + |sub|] == s[i..i + |sub|];
      assert OccursAt(a, sub, i);
    } else {
      var j: nat := i - |a| - 1;
      assert s[|a| + 1..] == b && b[j..j + |sub|] == s[i..i + |sub|];
      assert OccursAt(b, sub, j);
    }
  }

  lemma TooShort(s: string, sub: string)
    requires |s| < |sub|
    ensures !Contains(s, sub)
  {
  }

  /** Where the name occurs, its letters k and k + 1 stand side by side. */
  lemma NoPairNoOccurrence(s: string, sub: string, k: nat)
    requires k + 1 < |sub|
    requires forall j | k <= j && j - k + |sub| <= |s| :: !(s[j] == sub[k] && s[j + 1] == sub[k + 1])
    ensures !Contains(s, sub)
  {
    forall i: nat | i + |sub| <= |s| ensures !OccursAt(s, sub, i) {
      assert !(s[i + k] == sub[k] && s[i + k + 1] == sub[k + 1]);
      assert s[i..i + |sub|][k] == s[i + k] && s[i..i + |sub|][k + 1] == s[i + k + 1];
    }
  }

  lemma EndContains(a: string, b: string)
    ensures Contains(a + b, b)
  {
    assert OccursAt(a + b, b, |a|);
  }

  lemma NoFirstLetterNoOccurrence(s: string, sub: string)
    requires sub != "" && sub[0] !in s
    ensures !Contains(s, sub)
  {
    forall i: nat | i + |sub| <= |s| ensures !OccursAt(s, sub, i) {
      assert s[i..i + |sub|][0] == s[i];
    }
  }

  /** The test is right about the index, and wrong exactly when the value contains the name. */
  lemma ReadsValueToo(value: string, index: string, name: string)
    requires ('\'' !in name && |name| > 16)
          || name == "PRIMARY" || name == "idempotency_key" || name == "uq_event_id" || name == "uq_stream_version"
    ensures DupEntryOnKey(Message(value, index), name) <==> Contains(value, name) || Contains(index, name)
  {
    ContainsAround("Duplicate entry ", '\'', value + "'" + (" for key " + "'" + (index + "'" + "")), name);
    ContainsAround(value, '\'', " for key " + "'" + (index + "'" + ""), name);
    ContainsAround(" for key ", '\'', index + "'" + "", name);
    ContainsAround(index, '\'', "", name);
    TooShort("", name);
    NotInFixedText(name);
  }

  lemma NotInFixedText(name: string)
    requires |name| > 16
          || name == "PRIMARY" || name == "idempotency_key" || name == "uq_event_id" || name == "uq_stream_version"
    ensures !Contains("Duplicate entry ", name) && !Contains(" for key ", name)
  {
    if |name| > 16 {
      TooShort("Duplicate entry ", name);
      TooShort(" for key ", name);
    } else {
      NoPairNoOccurrence("Duplicate entry ", name, 0);
      NoPairNoOccurrence(" for key ", name, 0);
    }
  }
}
