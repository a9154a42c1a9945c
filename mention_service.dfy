/**
 * @mentions in comment text. A mention is an '@' directly followed by a run of
 * ASCII word characters [A-Za-z0-9_]; the name is the whole run. The scanner
 * collects the names into a set, so a repeated mention counts once. Mention
 * processing looks the names up among the workspace's members but, as
 * written, sends nothing.
 */
module MentionService {
  import opened Common
  import opened Members
  import opened Entities
  import opened StoreState

  /** The word characters of the pattern: ASCII letters, digits and '_'. */
  predicate IsWord(c: char)
  {
    ('a' <= c <= 'z') || ('A' <= c <= 'Z') || ('0' <= c <= '9') || c == '_'
  }

  /** The end of the run of word characters starting at k. */
  function RunEnd(s: string, k: nat): (e: nat)
    requires k <= |s|
    ensures k <= e <= |s|
    ensures forall m :: k <= m < e ==> IsWord(s[m])
    ensures e == |s| || !IsWord(s[e])
    decreases |s| - k
  {
    if k < |s| && IsWord(s[k]) then RunEnd(s, k + 1) else k
  }

  /** A mention starts at i: an '@' followed by a word character. */
  predicate MentionAt(s: string, i: int)
  {
    0 <= i && i + 1 < |s| && s[i] == '@' && IsWord(s[i + 1])
  }

  /** The name of the mention at i: the maximal run of word characters after the '@'. */
  function NameAt(s: string, i: int): string
    requires MentionAt(s, i)
  {
    s[i + 1..RunEnd(s, i + 1)]
  }

  /** The names of the mentions starting before n. */
  function MentionsBelow(s: string, n: nat): set<string>
  {
    set i | 0 <= i < n && MentionAt(s, i) :: NameAt(s, i)
  }

  /** Every mention of the text. */
  function MentionSet(s: string): set<string>
  {
    MentionsBelow(s, |s|)
  }

  /**
   * extractMentions: the matcher scans left to right; after a match it resumes
   * at the end of the name, otherwise one character further. The set it
   * returns holds exactly the names of all mentions in the text.
   */
  method ExtractMentions(text: string) returns (mentions: set<string>)
    ensures mentions == MentionSet(text)
  {
    mentions := {};
    var pos := 0;
    while pos < |text|
      invariant 0 <= pos <= |text|
      invariant mentions == MentionsBelow(text, pos)
    {
      if MentionAt(text, pos) {
        var j := pos + 1;
        while j < |text| && IsWord(text[j])
          invariant pos + 1 <= j <= |text|
          invariant forall m :: pos + 1 <= m < j ==> IsWord(text[m])
          invariant RunEnd(text, pos + 1) == RunEnd(text, j)
        {
          j := j + 1;
        }
        mentions := mentions + {text[pos + 1..j]};
        SkipRun(text, pos, j);
        pos := j;
      } else {
        assert MentionsBelow(text, pos + 1) == MentionsBelow(text, pos);
        pos := pos + 1;
      }
    }
  }

  /**
   * No mention starts inside a name, since word characters are not '@', so
   * jumping from the '@' at pos to the end of its name skips no mention.
   */
  lemma SkipRun(s: string, pos: nat, j: nat)
    requires MentionAt(s, pos) && j == RunEnd(s, pos + 1)
    ensures MentionsBelow(s, j) == MentionsBelow(s, pos) + {s[pos + 1..j]}
  {
    forall i | pos < i < j ensures !MentionAt(s, i) {
      assert IsWord(s[i]);
    }
    assert NameAt(s, pos) == s[pos + 1..j];
  }

  /**
   * Every extracted name is non-empty, made of word characters, found right
   * after an '@', and maximal: the text does not go on with a word character.
   */
  lemma NamesWellFormed(s: string, name: string)
    requires name in MentionSet(s)
    ensures |name| > 0 && forall k :: 0 <= k < |name| ==> IsWord(name[k])
    ensures exists i :: MentionAt(s, i) && i + 1 + |name| <= |s| && name == s[i + 1..i + 1 + |name|]
                        && (i + 1 + |name| == |s| || !IsWord(s[i + 1 + |name|]))
  {
    var i :| 0 <= i < |s| && MentionAt(s, i) && NameAt(s, i) == name;
    var e := RunEnd(s, i + 1);
    assert name == s[i + 1..e];
    forall k | 0 <= k < |name| ensures IsWord(name[k]) {
      assert name[k] == s[i + 1 + k];
    }
  }

  /** The text mentions nobody exactly when no '@' is followed by a word character. */
  lemma NoMentionIffNoAtWord(s: string)
    ensures MentionSet(s) == {} <==> forall i :: 0 <= i < |s| ==> !MentionAt(s, i)
  {
    if exists i :: 0 <= i < |s| && MentionAt(s, i) {
      var i :| 0 <= i < |s| && MentionAt(s, i);
      assert NameAt(s, i) in MentionSet(s);
    }
  }

  /** "@kim hi @kim" mentions one name, once; "@ x" mentions nobody. */
  lemma MentionExamples()
    ensures MentionSet("@kim hi @kim") == {"kim"}
    ensures MentionSet("@ x") == {}
  {
    var s := "@kim hi @kim";
    assert MentionAt(s, 0) && RunEnd(s, 1) == 4 && NameAt(s, 0) == "kim";
    assert MentionAt(s, 8) && RunEnd(s, 9) == 12 && NameAt(s, 8) == "kim";
    forall i | 0 <= i < |s| && MentionAt(s, i) ensures i == 0 || i == 8 {
    }
    NoMentionIffNoAtWord("@ x");
  }

  /**
   * processMentions: without mentions it returns at once; otherwise it walks
   * the users of the workspace's memberships and, for each mentioned one other
   * than the mentioner, does nothing. No notification is written or pushed.
   */
  method ProcessMentions(db: Store, content: string, mentioner: User, ws: WorkspaceId)
    requires db.Valid()
    ensures db.notifications == old(db.notifications) && db.pushes == old(db.pushes)
  {
    var mentionedNames := ExtractMentions(content);
    if mentionedNames == {} {
      return;
    }
    var users := set k | k in db.members && db.members[k].workspace == ws && db.members[k].user in db.users
                   :: db.users[db.members[k].user];
    while users != {}
      decreases users
    {
      var member :| member in users;
      if member.name in mentionedNames && member.id != mentioner.id {
      }
      users := users - {member};
    }
  }
}
