/** The commit records a page delivers and the list items the view model
    derives from them (`ToViewModel`). Only the fields the projection reads
    are kept. */
module Commits {
  import opened Wrappers
  import opened Text

  /** A repository user linked to a commit's author. */
  datatype User = User(displayName: Option<string>, username: string, avatarHref: Option<string>)

  /** A commit author: a linked user when the host knows one, and the raw
      `Name <email>` string from the commit itself. */
  datatype Author = Author(user: Option<User>, raw: Option<string>)

  datatype Commit = Commit(hash: string, message: Option<string>, author: Option<Author>)

  /** The display row for one commit (`CommitItemViewModel` without its
      relative date and navigation command). */
  datatype CommitItem = CommitItem(name: string, description: string, avatarHref: Option<string>, hash: string)

  /** The commits the projection can handle: the author is present, and when
      no user is linked the raw author string is present. Any other commit
      makes the projection dereference a null. */
  predicate WellFormed(c: Commit)
  {
    c.author.Some? && (c.author.value.user.Some? || c.author.value.raw.Some?)
  }

  predicate AllWellFormed(cs: seq<Commit>)
  {
    forall i :: 0 <= i < |cs| ==> WellFormed(cs[i])
  }

  /** The item's description: the first line of the message, a missing message
      reading as the empty string. A newline at index 0 does not count as a
      line break, so such a message is kept whole. */
  function Description(message: Option<string>): (r: string)
    ensures message.None? ==> r == ""
    ensures message.Some? ==> IsPrefix(r, message.value)
    ensures message.Some? && '\n' !in message.value ==> r == message.value
    ensures message.Some? && |message.value| > 0 && message.value[0] == '\n' ==> r == message.value
    ensures message.Some? && '\n' in message.value && message.value[0] != '\n' ==>
              '\n' !in r && |r| < |message.value| && message.value[|r|] == '\n'
  {
    LeadingSegment(message.GetOr(""), '\n')
  }

  /** The item's name: the linked user's display name, else its username;
      without a linked user, the raw author string up to (not including) the
      first `<`, unless that `<` is at index 0 or missing, when the whole raw
      string is used. */
  function DisplayName(a: Author): (r: string)
    requires a.user.Some? || a.raw.Some?
    ensures a.user.Some? && a.user.value.displayName.Some? ==> r == a.user.value.displayName.value
    ensures a.user.Some? && a.user.value.displayName.None? ==> r == a.user.value.username
    ensures a.user.None? ==> IsPrefix(r, a.raw.value)
    ensures a.user.None? && '<' !in a.raw.value ==> r == a.raw.value
    ensures a.user.None? && |a.raw.value| > 0 && a.raw.value[0] == '<' ==> r == a.raw.value
    ensures a.user.None? && '<' in a.raw.value && a.raw.value[0] != '<' ==>
              '<' !in r && |r| < |a.raw.value| && a.raw.value[|r|] == '<'
  {
    match a.user
    case Some(u) => u.displayName.GetOr(u.username)
    case None => LeadingSegment(a.raw.value, '<')
  }

  /** `ToViewModel`: the display row for one commit. */
  function ToViewModel(c: Commit): (item: CommitItem)
    requires WellFormed(c)
    ensures item.name == DisplayName(c.author.value)
    ensures item.description == Description(c.message)
    ensures item.hash == c.hash
    ensures item.avatarHref == (if c.author.value.user.Some? then c.author.value.user.value.avatarHref else None)
  {
    var a := c.author.value;
    CommitItem(
      DisplayName(a),
      Description(c.message),
      match a.user case Some(u) => u.avatarHref case None => None,
      c.hash)
  }

  /** The derived collection of rows: one row per commit, in commit order. */
  function ToViewModels(cs: seq<Commit>): (items: seq<CommitItem>)
    requires AllWellFormed(cs)
    ensures |items| == |cs|
    ensures forall i :: 0 <= i < |cs| ==> items[i] == ToViewModel(cs[i])
  {
    if |cs| == 0 then [] else [ToViewModel(cs[0])] + ToViewModels(cs[1..])
  }

  /** Projecting two runs of commits one after the other gives their rows one
      after the other; appending a page only appends rows. */
  lemma ToViewModelsAppend(a: seq<Commit>, b: seq<Commit>)
    requires AllWellFormed(a) && AllWellFormed(b)
    ensures AllWellFormed(a + b)
    ensures ToViewModels(a + b) == ToViewModels(a) + ToViewModels(b)
  {
    var l, r := ToViewModels(a + b), ToViewModels(a) + ToViewModels(b);
    assert |l| == |r|;
    forall i | 0 <= i < |l|
      ensures l[i] == r[i]
    {
      if i < |a| {
        assert (a + b)[i] == a[i];
      } else {
        assert (a + b)[i] == b[i - |a|];
      }
    }
  }

  /** A description contains a newline only when the message itself starts
      with one: the index-0 boundary keeps such messages whole. */
  lemma DescriptionNewlineOnlyWhenLeading(message: Option<string>)
    ensures '\n' in Description(message) <==>
              message.Some? && |message.value| > 0 && message.value[0] == '\n'
  {
    if message.Some? && |message.value| > 0 && message.value[0] == '\n' {
      assert Description(message)[0] == '\n';
    }
  }

  lemma DescriptionFirstLineExample()
    ensures Description(Some("Fix bug\nDetails here")) == "Fix bug"
  {
    var m := "Fix bug\nDetails here";
    var line := "Fix bug";
    assert m[..7] == line && m[7] == '\n';
    assert '\n' !in line by {
      forall i | 0 <= i < |line| ensures line[i] != '\n' { }
    }
    LeadingSegmentUnique(m, '\n', line);
  }

  lemma DescriptionLeadingNewlineExample()
    ensures Description(Some("\nDetails here")) == "\nDetails here"
  {
  }

  lemma DescriptionSingleLineExample()
    ensures Description(Some("One line")) == "One line"
  {
    var m := "One line";
    assert '\n' !in m by {
      forall i | 0 <= i < |m| ensures m[i] != '\n' { }
    }
  }

  lemma DisplayNameRawExample()
    ensures DisplayName(Author(None, Some("Jane Doe <jane@x.com>"))) == "Jane Doe "
  {
    var raw := "Jane Doe <jane@x.com>";
    var name := "Jane Doe ";
    assert raw[..9] == name && raw[9] == '<';
    assert '<' !in name by {
      forall i | 0 <= i < |name| ensures name[i] != '<' { }
    }
    LeadingSegmentUnique(raw, '<', name);
  }

  lemma DisplayNameRawBoundaryExamples()
    ensures DisplayName(Author(None, Some("<jane@x.com>"))) == "<jane@x.com>"
    ensures DisplayName(Author(None, Some("Jane Doe"))) == "Jane Doe"
  {
    var raw := "Jane Doe";
    assert '<' !in raw by {
      forall i | 0 <= i < |raw| ensures raw[i] != '<' { }
    }
  }

  lemma DisplayNameUserExamples()
    ensures DisplayName(Author(Some(User(None, "jdoe", None)), Some("Jane Doe <jane@x.com>"))) == "jdoe"
    ensures DisplayName(Author(Some(User(Some("Jane"), "jdoe", None)), None)) == "Jane"
  {
  }
}
