/**
 * Values shared by every part of the model: Java's nullable references as
 * `Option`, the service layer's exceptions as `Error`, and timestamps.
 */
module Common {

  /** A nullable reference: `None` stands for Java's `null`. */
  datatype Option<T> = None | Some(value: T)

  /**
   * The exceptions the services raise. `NotFound` is NotFoundException
   * (HTTP 404), `Validation` is ValidationException (400), `Forbidden` is
   * ForbiddenException (403), `Conflict` is ConflictException (409) and
   * `NullReference` is the exception the JVM throws on a null dereference, which no handler maps.
   */
  datatype Error = NotFound | Validation | Forbidden | Conflict | NullReference

  /** The outcome of a service call: a value, or the exception it throws. */
  datatype Result<T> = Ok(value: T) | Err(error: Error) {
    predicate IsFailure() {
      Err?
    }

    function PropagateFailure<U>(): Result<U>
      requires Err?
    {
      Err(error)
    }

    function Extract(): T
      requires Ok?
    {
      value
    }
  }

  /** A point in time (LocalDateTime), as an integer instant. */
  type Time = int
}

/**
 * The string operations the item search relies on: `toLowerCase` and
 * `contains`.
 */
module Text {

  /** `Character.toLowerCase` on the ASCII letters; other characters are kept. */
  function LowerChar(c: char): char {
    if 'A' <= c <= 'Z' then (c as int + 32) as char else c
  }

  /** `String.toLowerCase`, character by character. */
  function Lower(s: string): (r: string)
    ensures |r| == |s|
    ensures forall i :: 0 <= i < |s| ==> r[i] == LowerChar(s[i])
  {
    seq(|s|, i requires 0 <= i < |s| => LowerChar(s[i]))
  }

  /** `t` occurs in `s` at position `i`. */
  predicate OccursAt(s: string, t: string, i: int) {
    0 <= i && i + |t| <= |s| && s[i..i + |t|] == t
  }

  /** `String.contains`: scans `s` from the left for an occurrence of `t`. */
  function Contains(s: string, t: string): (r: bool)
    ensures r <==> exists i :: OccursAt(s, t, i)
  {
    if |s| < |t| then
      false
    else if s[..|t|] == t then
      assert OccursAt(s, t, 0);
      true
    else
      var r := Contains(s[1..], t);
      OccursInTail(s, t);
      r
  }

  /** Past a mismatch at position 0, `t` occurs in `s` exactly where it occurs in `s[1..]`, shifted by one. */
  lemma OccursInTail(s: string, t: string)
    requires |s| >= |t| && s[..|t|] != t
    ensures (exists i :: OccursAt(s, t, i)) <==> (exists i :: OccursAt(s[1..], t, i))
  {
    forall i | OccursAt(s, t, i) ensures OccursAt(s[1..], t, i - 1) {
      if i == 0 {
        assert false;
      } else {
        assert s[1..][i - 1..i - 1 + |t|] == s[i..i + |t|];
      }
    }
    forall i | OccursAt(s[1..], t, i) ensures OccursAt(s, t, i + 1) {
      assert s[1..][i..i + |t|] == s[i + 1..i + 1 + |t|];
    }
  }

  /** The item search's test: the lowered name or description holds the lowered text. */
  predicate MatchesText(name: string, description: string, text: string) {
    Contains(Lower(name), Lower(text)) || Contains(Lower(description), Lower(text))
  }

  /** Every string contains the empty string, so a match on "" would select every item. */
  lemma EmptyTextMatchesEverything(name: string, description: string)
    ensures MatchesText(name, description, "")
  {
    assert OccursAt(Lower(name), Lower(""), 0);
  }

  /** Lowering twice is lowering once: a lowered string has no upper-case letter left. */
  lemma LowerIdempotent(s: string)
    ensures Lower(Lower(s)) == Lower(s)
  {
    forall i | 0 <= i < |s| ensures Lower(Lower(s))[i] == Lower(s)[i] {
      assert Lower(s)[i] == LowerChar(s[i]);
    }
  }

  /**
   * Matching ignores case, for all inputs: names, descriptions or texts that
   * differ only in the case of their letters match alike, and lowering the
   * search text beforehand changes nothing.
   */
  lemma MatchesTextIgnoresCase(name: string, description: string, text: string,
                               name': string, description': string, text': string)
    requires Lower(name) == Lower(name') && Lower(description) == Lower(description') && Lower(text) == Lower(text')
    ensures MatchesText(name, description, text) == MatchesText(name', description', text')
    ensures MatchesText(name, description, text) == MatchesText(name, description, Lower(text))
  {
    LowerIdempotent(text);
  }

  /** An instance: the text "dRILL" is found in the name "Drill", as "drill" is. */
  lemma MatchIgnoresCase()
    ensures MatchesText("Drill", "", "dRILL")
  {
    assert Lower("dRILL") == Lower("drill") == "drill";
    MatchesTextIgnoresCase("Drill", "", "dRILL", "Drill", "", "drill");
    assert Lower("Drill") == "drill";
    assert OccursAt("drill", "drill", 0);
  }
}
