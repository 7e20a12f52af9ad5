/** `isValidBranchName`, written out twice in the source with the same
    regular expression (components/repo/repo-branches.tsx:30-34 and
    components/repo/repo-make-changes-button.tsx:38-42): a subset of git's
    `check-ref-format` rules.

    The expression is
      ^(?!\/|.*(?:\/\.|\/\/|\.\.|@{|\\))[^\x20\x7f ~^:?*\[\]]+(?<!\.|\/)$
    Its negative lookahead scans with `.*`, and `.` in a JavaScript regular
    expression does not match a line terminator, so a forbidden sequence
    placed after a newline is never seen, while the character class lets
    the newline itself through. `ValidAsWritten` models the expression as
    it is; `Valid` is the rule evidently intended (the sequences are
    forbidden anywhere), and it is what the rest of the model uses. */
module BranchNames {
  import opened Common

  const MaxLength := 255

  /** The characters `.` does not match in a JavaScript regular expression. */
  predicate IsLineTerminator(c: char) {
    c == '\n' || c == '\r' || c == '\U{2028}' || c == '\U{2029}'
  }

  /** The characters excluded by `[^\x20\x7f ~^:?*\[\]]`. */
  predicate IsForbiddenChar(c: char) {
    c == ' ' || c == '\U{7F}' || c == '~' || c == '^' || c == ':' || c == '?' || c == '*' || c == '[' || c == ']'
  }

  /** The sequences the lookahead refuses. */
  const ForbiddenSequences: seq<string> := ["/.", "//", "..", "@{", "\\"]

  /** One of the forbidden sequences starts at position `i`. */
  predicate ForbiddenAt(name: string, i: int) {
    0 <= i < |name| &&
    (name[i] == '\\'
     || (i + 1 < |name| &&
         ((name[i] == '/' && (name[i + 1] == '.' || name[i + 1] == '/'))
          || (name[i] == '.' && name[i + 1] == '.')
          || (name[i] == '@' && name[i + 1] == '{'))))
  }

  predicate NoLineTerminatorBefore(name: string, i: int)
    requires 0 <= i <= |name|
  {
    forall j :: 0 <= j < i ==> !IsLineTerminator(name[j])
  }

  /** The parts of the test that the finding does not touch: length, the
      `[^...]+` body and the final lookbehind. */
  predicate ShapeOk(name: string) {
    name != [] && |name| <= MaxLength
    && (forall i :: 0 <= i < |name| ==> !IsForbiddenChar(name[i]))
    && name[|name| - 1] != '.' && name[|name| - 1] != '/'
  }

  /** `isValidBranchName` as the source writes it. */
  predicate ValidAsWritten(name: string) {
    ShapeOk(name) && name[0] != '/'
    && !(exists i :: 0 <= i < |name| && NoLineTerminatorBefore(name, i) && ForbiddenAt(name, i))
  }

  /** The rule evidently intended: no forbidden sequence anywhere. */
  predicate Valid(name: string) {
    ShapeOk(name) && name[0] != '/'
    && !(exists i :: 0 <= i < |name| && ForbiddenAt(name, i))
  }

  /** `Valid` stated in the terms of the rule: empty and over-long names are
      refused, and otherwise a name is valid exactly when it does not start
      with "/", contains none of the forbidden sequences and characters,
      and does not end in "." or "/". */
  lemma ValidMeaning(name: string)
    ensures name == [] || |name| > MaxLength ==> !Valid(name)
    ensures Valid(name) <==>
      && name != [] && |name| <= MaxLength
      && !StartsWith(name, "/")
      && (forall k :: 0 <= k < |ForbiddenSequences| ==> !Contains(name, ForbiddenSequences[k]))
      && (forall i :: 0 <= i < |name| ==> !IsForbiddenChar(name[i]))
      && !EndsWith(name, ".") && !EndsWith(name, "/")
  {
    if exists i :: 0 <= i < |name| && ForbiddenAt(name, i) {
      var i :| 0 <= i < |name| && ForbiddenAt(name, i);
      ForbiddenAtContains(name, i);
    }
    if exists k :: 0 <= k < |ForbiddenSequences| && Contains(name, ForbiddenSequences[k]) {
      var k :| 0 <= k < |ForbiddenSequences| && Contains(name, ForbiddenSequences[k]);
      ContainsForbiddenAt(name, k);
    }
    if name != [] {
      EdgesMeaning(name);
    }
  }

  /** A forbidden sequence starting at `i` is one of the listed ones. */
  lemma ForbiddenAtContains(name: string, i: int)
    requires ForbiddenAt(name, i)
    ensures exists k :: 0 <= k < |ForbiddenSequences| && Contains(name, ForbiddenSequences[k])
  {
    var k :=
      if name[i] == '\\' then 4
      else if name[i] == '/' && name[i + 1] == '.' then 0
      else if name[i] == '/' then 1
      else if name[i] == '.' then 2
      else 3;
    var w := ForbiddenSequences[k];
    assert name[i..i + |w|] == w;
    ContainsAt(name, w, i);
  }

  /** A listed sequence inside the name starts a forbidden sequence. */
  lemma ContainsForbiddenAt(name: string, k: int)
    requires 0 <= k < |ForbiddenSequences| && Contains(name, ForbiddenSequences[k])
    ensures exists i :: 0 <= i < |name| && ForbiddenAt(name, i)
  {
    var w := ForbiddenSequences[k];
    var i := ContainsWitness(name, w);
    var infix := name[i..i + |w|];
    assert name[i] == infix[0] == w[0];
    if k < 4 {
      assert |w| == 2;
      assert name[i + 1] == infix[1] == w[1];
      assert i + 1 < |name|;
      if k == 0 { assert name[i] == '/' && name[i + 1] == '.'; }
      else if k == 1 { assert name[i] == '/' && name[i + 1] == '/'; }
      else if k == 2 { assert name[i] == '.' && name[i + 1] == '.'; }
      else { assert name[i] == '@' && name[i + 1] == '{'; }
    } else {
      assert name[i] == '\\';
    }
    assert ForbiddenAt(name, i);
  }

  lemma EdgesMeaning(name: string)
    requires name != []
    ensures StartsWith(name, "/") <==> name[0] == '/'
    ensures EndsWith(name, ".") <==> name[|name| - 1] == '.'
    ensures EndsWith(name, "/") <==> name[|name| - 1] == '/'
  {
    assert StartsWith(name, "/") <==> name[..1] == "/";
    assert EndsWith(name, ".") <==> name[|name| - 1..] == ".";
    assert EndsWith(name, "/") <==> name[|name| - 1..] == "/";
  }

  /** Without line terminators the expression as written is the intended rule. */
  lemma AgreeWithoutLineTerminators(name: string)
    requires forall j :: 0 <= j < |name| ==> !IsLineTerminator(name[j])
    ensures ValidAsWritten(name) <==> Valid(name)
  {
    if exists i :: 0 <= i < |name| && ForbiddenAt(name, i) {
      var i :| 0 <= i < |name| && ForbiddenAt(name, i);
      assert NoLineTerminatorBefore(name, i);
    }
  }

  /** The intended rule only ever refuses more. */
  lemma ValidIsStricter(name: string)
    ensures Valid(name) ==> ValidAsWritten(name)
  {
  }

  /** The discrepancy, on a concrete name: "a", a newline, "..b". */
  lemma LineTerminatorHidesForbiddenSequence()
    ensures ValidAsWritten("a\n..b")
    ensures !Valid("a\n..b")
  {
    var name := "a\n..b";
    assert ForbiddenAt(name, 2);
    forall i | 0 <= i < |name| && NoLineTerminatorBefore(name, i)
      ensures !ForbiddenAt(name, i)
    {
      if i >= 2 {
        assert IsLineTerminator(name[1]);
      }
    }
  }

  /** The same discrepancy for every line terminator, U+2028 included,
      which a pasted name can carry into a text input. */
  lemma AnyLineTerminatorHidesForbiddenSequence(c: char)
    requires IsLineTerminator(c)
    ensures ValidAsWritten(['a', c, '.', '.', 'b'])
    ensures !Valid(['a', c, '.', '.', 'b'])
  {
    var name := ['a', c, '.', '.', 'b'];
    assert ForbiddenAt(name, 2);
    forall i | 0 <= i < |name| && ForbiddenAt(name, i)
      ensures !NoLineTerminatorBefore(name, i)
    {
      assert i >= 2;
      assert IsLineTerminator(name[1]);
    }
  }

  /** The guard of `handleCreateBranch` in the branch list,
      `search || isValidBranchName(search)`, admits every non-empty search:
      the validity test never refuses anything. */
  lemma CreateGuardIsNonEmpty(search: string)
    ensures (search != [] || Valid(search)) <==> search != []
    ensures (search != [] || ValidAsWritten(search)) <==> search != []
  {
  }
}
