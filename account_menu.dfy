/**
 * The account menu's badge (components/AccountMenu.tsx): the user's avatar
 * when there is one, and otherwise the initials of the user's name.
 */
module AccountMenu {
  import opened Types
  import Text

  /** `words.map(n => n[0]).join('')`: an empty word gives `undefined`, which joins as nothing. */
  function FirstChars(words: seq<string>): (r: string)
    ensures |r| == |Text.DropEmpty(words)|
    ensures forall i :: 0 <= i < |r| ==> r[i] == Text.DropEmpty(words)[i][0]
  {
    if |words| == 0 then ""
    else (if words[0] == "" then "" else [words[0][0]]) + FirstChars(words[1..])
  }

  /** `s.substring(0, n)` for a non-negative `n`. */
  function Prefix(s: string, n: nat): (r: string)
    ensures |r| == if n < |s| then n else |s|
    ensures r == s[..|r|]
  {
    if n < |s| then s[..n] else s
  }

  /** The words of a name: the pieces between spaces that are not empty. */
  function Words(name: string): seq<string>
  {
    Text.DropEmpty(Text.Split(name, ' '))
  }

  /**
   * `getInitials`: the first characters of the first two words of the name,
   * upper-cased; repeated, leading and trailing spaces add nothing.
   */
  function Initials(name: string): (r: string)
    ensures |r| <= 2
    ensures |r| == if |Words(name)| < 2 then |Words(name)| else 2
    ensures forall i :: 0 <= i < |r| ==> r[i] == Text.UpperChar(Words(name)[i][0])
    ensures forall i :: 0 <= i < |r| ==> !('a' <= r[i] <= 'z')
  {
    Text.Upper(Prefix(FirstChars(Text.Split(name, ' ')), 2))
  }

  /** A name with at least one non-space character has initials; one without has none. */
  lemma {:induction false} InitialsEmptyIff(name: string)
    ensures Initials(name) == "" <==> forall i :: 0 <= i < |name| ==> name[i] == ' '
  {
    if forall i :: 0 <= i < |name| ==> name[i] == ' ' {
      OnlySpacesNoWords(name);
    } else {
      var k :| 0 <= k < |name| && name[k] != ' ';
      SomeWord(name, k);
    }
  }

  /** A name made only of spaces splits into empty pieces only. */
  lemma {:induction false} OnlySpacesNoWords(name: string)
    requires forall i :: 0 <= i < |name| ==> name[i] == ' '
    ensures Words(name) == []
  {
    if |name| > 0 {
      OnlySpacesNoWords(name[1..]);
      assert name == "" + [' '] + name[1..];
      Text.SplitAtFirst("", ' ', name[1..]);
      assert Text.Split(name, ' ') == [""] + Text.Split(name[1..], ' ');
      assert Text.Split(name, ' ')[1..] == Text.Split(name[1..], ' ');
    } else {
      assert Text.Split(name, ' ') == [""];
    }
  }

  /** A name with a non-space character has a word. */
  lemma SomeWord(name: string, k: nat)
    requires k < |name| && name[k] != ' '
    ensures Words(name) != []
  {
    var w := NonEmptyPiece(name, k);
    assert w in Words(name);
  }

  /** The piece around a non-space character is not empty. */
  lemma {:induction false} NonEmptyPiece(name: string, k: nat) returns (w: string)
    requires k < |name| && name[k] != ' '
    ensures w in Text.Split(name, ' ') && w != ""
  {
    if ' ' !in name {
      assert Text.Split(name, ' ') == [name];
      w := name;
    } else {
      var first := FirstSpace(name);
      SplitAtFirstSpace(name);
      if k < first {
        assert name[..first][k] == name[k];
        w := name[..first];
      } else {
        assert name[first + 1..][k - first - 1] == name[k];
        w := NonEmptyPiece(name[first + 1..], k - first - 1);
      }
    }
  }

  /** A name splits at its first space into the text before it and the pieces after it. */
  lemma SplitAtFirstSpace(name: string)
    requires ' ' in name
    ensures Text.Split(name, ' ') == [name[..FirstSpace(name)]] + Text.Split(name[FirstSpace(name) + 1..], ' ')
  {
    var first := FirstSpace(name);
    assert name == name[..first] + [' '] + name[first + 1..];
    Text.SplitAtFirst(name[..first], ' ', name[first + 1..]);
  }

  /** The index of the first space of a name that has one. */
  function FirstSpace(name: string): (k: nat)
    requires ' ' in name
    ensures k < |name| && name[k] == ' ' && ' ' !in name[..k]
  {
    if name[0] == ' ' then 0
    else
      assert name[0] != ' ' && ' ' in name[1..];
      var k := 1 + FirstSpace(name[1..]);
      assert name[..k] == [name[0]] + name[1..][..k - 1];
      k
  }

  /** "Alice Chen" gives "AC". */
  lemma InitialsExample()
    ensures Initials("Alice Chen") == "AC"
  {
    ExampleWords();
  }

  /** The words of "Alice Chen". */
  lemma ExampleWords()
    ensures Words("Alice Chen") == ["Alice", "Chen"]
  {
    assert "Alice Chen" == "Alice" + [' '] + "Chen";
    Text.SplitAtFirst("Alice", ' ', "Chen");
    assert Text.Split("Chen", ' ') == ["Chen"];
  }

  /** What the menu button shows for the user. */
  datatype Badge = AvatarImage(url: string) | InitialsBadge(initials: string)

  /** `user.avatar ? <img> : <initials>`: the initials only when the avatar is missing or "". */
  function BadgeFor(u: User): (b: Badge)
    ensures b.AvatarImage? <==> u.avatar.Some? && u.avatar.value != ""
    ensures b.AvatarImage? ==> b.url == u.avatar.value
    ensures b.InitialsBadge? ==> b.initials == Initials(u.name)
  {
    if u.avatar.Some? && u.avatar.value != "" then AvatarImage(u.avatar.value) else InitialsBadge(Initials(u.name))
  }
}
