/**
 * The list operations and small helpers of js/dashboard.js: the favourite
 * businesses toggle, the task completion log and the progress percentage of
 * the signed-in user, the card filters, and the priority, notification and
 * initials helpers.
 */
module Dashboard {
  import opened Wrappers
  import opened JsString
  import opened PersonalizedPath
  import opened Accounts

  // ---------------------------------------------------------------
  // toggleFavorite
  // ---------------------------------------------------------------

  /** `xs.indexOf(x)`: the first position of `x`, or -1. */
  function IndexOf(xs: seq<int>, x: int): (i: int)
    ensures -1 <= i < |xs|
    ensures i == -1 <==> x !in xs
    ensures i >= 0 ==> xs[i] == x && forall j | 0 <= j < i :: xs[j] != x
  {
    if xs == [] then -1
    else if xs[0] == x then 0
    else
      var i := IndexOf(xs[1..], x);
      if i == -1 then -1 else i + 1
  }

  /** The favourites list after toggleFavorite(id): the first occurrence spliced out, or `id` pushed. */
  function Toggled(favs: seq<int>, id: int): seq<int> {
    var index := IndexOf(favs, id);
    if index > -1 then favs[..index] + favs[index + 1..] else favs + [id]
  }

  predicate NoDuplicates(xs: seq<int>) {
    forall i, j | 0 <= i < j < |xs| :: xs[i] != xs[j]
  }

  /** Toggling removes one copy of a present id or adds one copy of an absent one; nothing else changes count. */
  lemma ToggleCounts(favs: seq<int>, id: int)
    ensures multiset(Toggled(favs, id)) ==
            if id in favs then multiset(favs) - multiset{id} else multiset(favs) + multiset{id}
  {
    var index := IndexOf(favs, id);
    if index > -1 {
      assert favs == favs[..index] + [id] + favs[index + 1..];
      calc {
        multiset(favs);
        multiset(favs[..index]) + multiset{id} + multiset(favs[index + 1..]);
      }
    }
  }

  /** On a list without duplicates, toggling flips whether `id` is a favourite and keeps the list free of duplicates. */
  lemma ToggleFlips(favs: seq<int>, id: int)
    requires NoDuplicates(favs)
    ensures id in Toggled(favs, id) <==> id !in favs
    ensures NoDuplicates(Toggled(favs, id))
  {
    ToggleCounts(favs, id);
    var t := Toggled(favs, id);
    var index := IndexOf(favs, id);
    if index > -1 {
      assert multiset(favs)[id] == 1 by {
        NoDuplicatesCount(favs, id);
      }
      assert multiset(t)[id] == 0;
      forall i, j | 0 <= i < j < |t| ensures t[i] != t[j] {
        var i' := if i < index then i else i + 1;
        var j' := if j < index then j else j + 1;
        assert t[i] == favs[i'] && t[j] == favs[j'];
      }
    }
  }

  /** Without duplicates an element occurs at most once. */
  lemma {:induction false} NoDuplicatesCount(xs: seq<int>, x: int)
    requires NoDuplicates(xs)
    ensures multiset(xs)[x] == if x in xs then 1 else 0
  {
    if xs != [] {
      assert NoDuplicates(xs[1..]) by {
        forall i, j | 0 <= i < j < |xs| - 1 ensures xs[1..][i] != xs[1..][j] {
          assert xs[1..][i] == xs[i + 1] && xs[1..][j] == xs[j + 1];
        }
      }
      NoDuplicatesCount(xs[1..], x);
      assert xs == [xs[0]] + xs[1..];
      if xs[0] == x {
        assert x !in xs[1..] by {
          forall k | 0 <= k < |xs| - 1 ensures xs[1..][k] != x {
            assert xs[1..][k] == xs[k + 1];
          }
        }
      }
    }
  }

  /** Adding a business and toggling it again restores the list exactly. */
  lemma ToggleTwiceRestores(favs: seq<int>, id: int)
    requires id !in favs
    ensures Toggled(Toggled(favs, id), id) == favs
  {
    var t := favs + [id];
    assert IndexOf(t, id) == |favs| by {
      assert t[|favs|] == id;
      assert forall j | 0 <= j < |favs| :: t[j] == favs[j];
    }
    assert t[..|favs|] == favs;
  }

  // ---------------------------------------------------------------
  // The progress of loadProgress
  // ---------------------------------------------------------------

  /**
   * `Math.round((completed / total) * 100)`, or 0 without tasks: the whole
   * number nearest to 100·completed/total, halves rounded up.
   */
  function ProgressPercent(total: nat, completed: nat): (p: nat)
    ensures total == 0 ==> p == 0
    ensures total > 0 ==> total * (2 * p - 1) <= 200 * completed < total * (2 * p + 1)
  {
    if total == 0 then 0 else (200 * completed + total) / (2 * total)
  }

  /** Progress never passes 100 while completions do not outnumber tasks, and is 100 when they match. */
  lemma ProgressBounds(total: nat, completed: nat)
    requires completed <= total
    ensures ProgressPercent(total, completed) <= 100
    ensures total > 0 && completed == total ==> ProgressPercent(total, completed) == 100
  {
    var p := ProgressPercent(total, completed);
    if total > 0 {
      if p > 100 {
        MulMono(total, 201, 2 * p - 1);
      }
      if completed == total && p < 100 {
        MulMono(total, 2 * p + 1, 199);
      }
    }
  }

  lemma MulMono(k: nat, a: int, b: int)
    requires a <= b
    ensures k * a <= k * b
  {
  }

  /** One more completion never lowers the progress. */
  lemma ProgressMonotone(total: nat, completed: nat)
    ensures ProgressPercent(total, completed) <= ProgressPercent(total, completed + 1)
  {
    if total > 0 {
      var p := ProgressPercent(total, completed);
      var q := ProgressPercent(total, completed + 1);
      if q < p {
        assert total * (2 * q + 1) <= total * (2 * p - 1) by {
          MulMono(total, 2 * q + 1, 2 * p - 1);
        }
      }
    }
  }

  /** Completions are not de-duplicated, so the percentage can pass 100: one task completed twice shows 200. */
  lemma ProgressCanExceedHundred()
    ensures ProgressPercent(1, 2) == 200
  {
  }

  // ---------------------------------------------------------------
  // The signed-in user
  // ---------------------------------------------------------------

  /** `list || []` for an optional list. */
  function OrEmpty<T>(xs: Option<seq<T>>): (r: seq<T>)
    ensures xs.Some? ==> r == xs.value
    ensures xs.None? ==> r == []
  {
    if xs.Some? then xs.value else []
  }

  /**
   * The lists of the user that getCurrentUser returns; a list the stored user
   * does not have is `None`.
   */
  class SessionUser {
    var personalizedPath: Option<seq<Task>>
    var completedTasks: Option<seq<Completion>>
    var favoriteBusinesses: Option<seq<int>>

    /** The current user as registration stored it. */
    constructor(u: User)
      ensures u.profile.Entrepreneur? ==> personalizedPath == Some(u.profile.personalizedPath)
                                          && completedTasks == Some(u.profile.completedTasks)
                                          && favoriteBusinesses == None
      ensures u.profile.Client? ==> personalizedPath == None && completedTasks == None
                                    && favoriteBusinesses == Some(u.profile.favoriteBusinesses)
      ensures u.profile.Facilitator? ==> personalizedPath == None && completedTasks == None && favoriteBusinesses == None
    {
      match u.profile {
        case Entrepreneur(_, _, _, _, _, path, completed, _, _) =>
          personalizedPath := Some(path);
          completedTasks := Some(completed);
          favoriteBusinesses := None;
        case Client(_, _, _, favorites, _) =>
          personalizedPath := None;
          completedTasks := None;
          favoriteBusinesses := Some(favorites);
        case Facilitator(_, _, _, _, _, _, _) =>
          personalizedPath := None;
          completedTasks := None;
          favoriteBusinesses := None;
      }
    }

    /** The percentage loadProgress shows for this user. */
    function Progress(): (p: nat)
      reads this
      ensures OrEmpty(completedTasks) == [] ==> p == 0
      ensures |OrEmpty(completedTasks)| <= |OrEmpty(personalizedPath)| ==> p <= 100
    {
      var total, completed := |OrEmpty(personalizedPath)|, |OrEmpty(completedTasks)|;
      assert completed <= total ==> ProgressPercent(total, completed) <= 100 by {
        if completed <= total {
          ProgressBounds(total, completed);
        }
      }
      ProgressPercent(total, completed)
    }

    /** completeTask(taskId): the log is created when missing and gets exactly one more record. */
    method CompleteTask(taskId: string, now: string)
      modifies this`completedTasks
      ensures completedTasks == Some(OrEmpty(old(completedTasks)) + [Completion(taskId, now)])
      ensures Progress() >= old(Progress())
    {
      if completedTasks.None? {
        completedTasks := Some([]);
      }
      completedTasks := Some(completedTasks.value + [Completion(taskId, now)]);
      ProgressMonotone(|OrEmpty(personalizedPath)|, |OrEmpty(old(completedTasks))|);
    }

    /** toggleFavorite(businessId): the list is created when missing, then the id is spliced out or pushed. */
    method ToggleFavorite(businessId: int)
      modifies this`favoriteBusinesses
      ensures favoriteBusinesses == Some(Toggled(OrEmpty(old(favoriteBusinesses)), businessId))
    {
      if favoriteBusinesses.None? {
        favoriteBusinesses := Some([]);
      }
      var favorites := favoriteBusinesses.value;
      var index := IndexOf(favorites, businessId);
      if index > -1 {
        favoriteBusinesses := Some(favorites[..index] + favorites[index + 1..]);
      } else {
        favoriteBusinesses := Some(favorites + [businessId]);
      }
    }
  }

  // ---------------------------------------------------------------
  // filterStudents and filterBusinesses
  // ---------------------------------------------------------------

  /** A `.student-card`: the classes of its `.student-card__status` element and whether it is displayed. */
  datatype StudentCard = StudentCard(statusClasses: set<string>, shown: bool)

  /** A `.business-card`: the text of its `.business-card__category` element and whether it is displayed. */
  datatype BusinessCard = BusinessCard(category: string, shown: bool)

  const StatusClass := "student-card__status"

  /** The modifier class a status gets: `student-card__status--<status>`. */
  function StatusModifier(status: string): (c: string)
    ensures |c| == |StatusClass| + 2 + |status| && c[..|StatusClass| + 2] == StatusClass + "--"
  {
    StatusClass + "--" + status
  }

  /** The classes loadStudents gives the status element of a student with `status`. */
  function StatusClasses(status: string): set<string> {
    {StatusClass, StatusModifier(status)}
  }

  predicate StudentMatches(card: StudentCard, filter: string) {
    filter == "all" || StatusModifier(filter) in card.statusClasses
  }

  /** filterStudents(filter): every card's display set from the filter. */
  method FilterStudents(cards: array<StudentCard>, filter: string)
    modifies cards
    ensures forall i | 0 <= i < cards.Length :: cards[i] == old(cards[i]).(shown := StudentMatches(old(cards[i]), filter))
  {
    var i := 0;
    while i < cards.Length
      invariant 0 <= i <= cards.Length
      invariant forall j | 0 <= j < i :: cards[j] == old(cards[j]).(shown := StudentMatches(old(cards[j]), filter))
      invariant forall j | i <= j < cards.Length :: cards[j] == old(cards[j])
    {
      if filter == "all" {
        cards[i] := cards[i].(shown := true);
      } else {
        var status := cards[i].statusClasses;
        cards[i] := cards[i].(shown := StatusModifier(filter) in status);
      }
      i := i + 1;
    }
  }

  /** For a card as loadStudents renders it, the filter shows it exactly for `all` and its own status. */
  lemma StudentFilterByStatus(status: string, shown: bool, filter: string)
    ensures StudentMatches(StudentCard(StatusClasses(status), shown), filter) <==> filter == "all" || filter == status
  {
    var m := StatusModifier(filter);
    if m == StatusModifier(status) {
      assert filter == m[|StatusClass| + 2..] == status;
    }
    assert m != StatusClass by {
      assert |m| != |StatusClass|;
    }
  }

  predicate BusinessMatches(card: BusinessCard, category: string) {
    category == "all" || card.category == category
  }

  /** filterBusinesses(category): every card's display set from the category. */
  method FilterBusinesses(cards: array<BusinessCard>, category: string)
    modifies cards
    ensures forall i | 0 <= i < cards.Length :: cards[i] == old(cards[i]).(shown := BusinessMatches(old(cards[i]), category))
  {
    var i := 0;
    while i < cards.Length
      invariant 0 <= i <= cards.Length
      invariant forall j | 0 <= j < i :: cards[j] == old(cards[j]).(shown := BusinessMatches(old(cards[j]), category))
      invariant forall j | i <= j < cards.Length :: cards[j] == old(cards[j])
    {
      if category == "all" {
        cards[i] := cards[i].(shown := true);
      } else {
        var cardCategory := cards[i].category;
        cards[i] := cards[i].(shown := cardCategory == category);
      }
      i := i + 1;
    }
  }

  /** The categories of the cards filterBusinesses leaves displayed, in page order. */
  function ShownCategories(cards: seq<BusinessCard>): (cs: seq<string>)
    ensures |cs| <= |cards|
  {
    if cards == [] then []
    else (if cards[0].shown then [cards[0].category] else []) + ShownCategories(cards[1..])
  }

  /** How many cards carry `category`. */
  function CountCategory(cards: seq<BusinessCard>, category: string): nat {
    if cards == [] then 0
    else (if cards[0].category == category then 1 else 0) + CountCategory(cards[1..], category)
  }

  /** The cards as FilterBusinesses leaves them. */
  function FilteredCards(cards: seq<BusinessCard>, category: string): (r: seq<BusinessCard>)
    ensures |r| == |cards|
  {
    seq(|cards|, i requires 0 <= i < |cards| => cards[i].(shown := BusinessMatches(cards[i], category)))
  }

  /** After filtering by a category other than `all`, the displayed cards are exactly those that carry it. */
  lemma {:induction false} FilteredShowsOnlyCategory(cards: seq<BusinessCard>, category: string)
    requires category != "all"
    ensures forall c | c in ShownCategories(FilteredCards(cards, category)) :: c == category
    ensures |ShownCategories(FilteredCards(cards, category))| == CountCategory(cards, category)
  {
    if cards != [] {
      FilteredShowsOnlyCategory(cards[1..], category);
      assert FilteredCards(cards, category)[1..] == FilteredCards(cards[1..], category);
    }
  }

  /** Filtering by `all` displays every card. */
  lemma {:induction false} FilterAllShowsEverything(cards: seq<BusinessCard>)
    ensures ShownCategories(FilteredCards(cards, "all")) == seq(|cards|, i requires 0 <= i < |cards| => cards[i].category)
  {
    if cards != [] {
      FilterAllShowsEverything(cards[1..]);
      assert FilteredCards(cards, "all")[1..] == FilteredCards(cards[1..], "all");
    }
  }

  // ---------------------------------------------------------------
  // getPriorityLabel, getNotificationIcon, getInitials
  // ---------------------------------------------------------------

  /** `labels[priority] || priority`. */
  function PriorityLabel(priority: string): (text: string)
    ensures priority !in {"alta", "media", "baja"} ==> text == priority
  {
    if priority == "alta" then "Urgente"
    else if priority == "media" then "Normal"
    else if priority == "baja" then "Opcional"
    else priority
  }

  /** Every task of a personalized path shows one of the three labels. */
  lemma PathLabels(d: Diagnostic, goal: Dom.Value)
    ensures forall k | 0 <= k < |PathFor(d, goal)| :: PriorityLabel(PathFor(d, goal)[k].priority) in {"Urgente", "Normal", "Opcional"}
  {
    PathPriorities(d, goal);
  }

  /** `icons[type] || '📢'`. */
  function NotificationIcon(kind: string): (icon: string)
    ensures |icon| == 1
    ensures kind !in {"task", "achievement", "message", "reminder"} ==> icon == "📢"
  {
    if kind == "task" then "✅"
    else if kind == "achievement" then "🏆"
    else if kind == "message" then "💬"
    else if kind == "reminder" then "⏰"
    else "📢"
  }

  /** The four notification kinds get four different icons, none of them the fallback. */
  lemma IconsDistinct()
    ensures |{NotificationIcon("task"), NotificationIcon("achievement"), NotificationIcon("message"),
              NotificationIcon("reminder"), NotificationIcon("other")}| == 5
  {
  }

  /** `pieces.map(n => n[0]).join('')`: the first character of each piece; an empty piece gives nothing. */
  function Heads(pieces: seq<string>): (r: string)
    ensures |r| <= |pieces|
  {
    if pieces == [] then []
    else (if pieces[0] == [] then [] else [pieces[0][0]]) + Heads(pieces[1..])
  }

  /** getInitials(name): at most two characters, upper-cased. */
  function Initials(name: string): (r: string)
    ensures |r| <= 2
  {
    var heads := Heads(Split(name, ' '));
    UpperAscii(if |heads| <= 2 then heads else heads[..2])
  }

  lemma {:induction false} HeadsAppend(a: seq<string>, b: seq<string>)
    ensures Heads(a + b) == Heads(a) + Heads(b)
  {
    if a != [] {
      HeadsAppend(a[1..], b);
      var h := if a[0] == [] then [] else [a[0][0]];
      calc {
        Heads(a + b);
        { assert (a + b)[0] == a[0]; assert (a + b)[1..] == a[1..] + b; }
        h + Heads(a[1..] + b);
        h + (Heads(a[1..]) + Heads(b));
        (h + Heads(a[1..])) + Heads(b);
      }
    } else {
      assert a + b == b;
    }
  }

  /** Splitting at a separator splits the pieces. */
  lemma {:induction false} SplitAppend(a: string, b: string, sep: char)
    ensures Split(a + [sep] + b, sep) == Split(a, sep) + Split(b, sep)
  {
    var s := a + [sep] + b;
    if a == [] {
      assert s[0] == sep && s[1..] == b;
    } else {
      assert s[0] == a[0] && s[1..] == a[1..] + [sep] + b;
      SplitAppend(a[1..], b, sep);
      if a[0] != sep {
        SplitAppendCons(a, Split(a[1..], sep), Split(b, sep));
      }
    }
  }

  lemma SplitAppendCons(a: string, r: seq<string>, t: seq<string>)
    requires a != [] && |r| >= 1
    ensures [[a[0]] + (r + t)[0]] + (r + t)[1..] == ([[a[0]] + r[0]] + r[1..]) + t
  {
    assert (r + t)[0] == r[0];
    assert (r + t)[1..] == r[1..] + t;
  }

  /** A word without spaces has one piece, itself. */
  lemma {:induction false} SplitWord(w: string, sep: char)
    requires sep !in w
    ensures Split(w, sep) == [w]
  {
    if w != [] {
      SplitWord(w[1..], sep);
      assert w == [w[0]] + w[1..];
    }
  }

  /** Two space-free words give their two first letters, upper-cased; a third word is cut off. */
  lemma InitialsOfWords(w1: string, w2: string, rest: string)
    requires w1 != [] && w2 != [] && ' ' !in w1 && ' ' !in w2
    ensures Initials(w1 + " " + w2) == UpperAscii([w1[0], w2[0]])
    ensures Initials(w1 + " " + w2 + " " + rest) == UpperAscii([w1[0], w2[0]])
  {
    SplitAppend(w1, w2, ' ');
    SplitWord(w1, ' ');
    SplitWord(w2, ' ');
    HeadsAppend([w1], [w2]);
    assert Heads(Split(w1 + " " + w2, ' ')) == [w1[0], w2[0]];
    SplitAppend(w1 + " " + w2, rest, ' ');
    HeadsAppend([w1, w2], Split(rest, ' '));
    assert [w1] + [w2] == [w1, w2];
    var heads := Heads(Split(w1 + " " + w2 + " " + rest, ' '));
    assert heads == [w1[0], w2[0]] + Heads(Split(rest, ' '));
    assert heads[..2] == [w1[0], w2[0]];
  }

  /** Position `i` of `s` begins a word: a non-space at the start or after a space. */
  predicate WordStart(s: string, i: int) {
    0 <= i < |s| && s[i] != ' ' && (i == 0 || s[i - 1] == ' ')
  }

  /** The characters of `s` that begin a word, from position `i` on, in order. */
  function WordStartsFrom(s: string, i: nat): (r: string)
    ensures forall k | 0 <= k < |r| :: r[k] != ' '
    decreases |s| - i
  {
    if i >= |s| then []
    else (if WordStart(s, i) then [s[i]] else []) + WordStartsFrom(s, i + 1)
  }

  /**
   * The heads of the pieces of `s[i..]` are the word starts from `i` on;
   * when `i` is inside a word, the first piece continues that word and is
   * left out.
   */
  lemma {:induction false} HeadsAreWordStarts(s: string, i: nat)
    requires i <= |s|
    ensures i == 0 || s[i - 1] == ' ' ==> Heads(Split(s[i..], ' ')) == WordStartsFrom(s, i)
    ensures i > 0 && s[i - 1] != ' ' ==> Heads(Split(s[i..], ' ')[1..]) == WordStartsFrom(s, i)
    decreases |s| - i
  {
    if i < |s| {
      HeadsAreWordStarts(s, i + 1);
      var t := s[i..];
      assert t[0] == s[i] && t[1..] == s[i + 1..];
      var r := Split(s[i + 1..], ' ');
      if s[i] == ' ' {
        assert Split(t, ' ') == [[]] + r;
        assert Split(t, ' ')[1..] == r;
      } else {
        assert Split(t, ' ') == [[s[i]] + r[0]] + r[1..];
        assert Heads(Split(t, ' ')) == [s[i]] + Heads(r[1..]);
        assert Split(t, ' ')[1..] == r[1..];
      }
    }
  }

  /**
   * getInitials(name) is the first two word starts of `name`, each
   * upper-cased when it is an ASCII lower-case letter.
   */
  lemma InitialsAreWordStarts(name: string)
    ensures var w, r := WordStartsFrom(name, 0), Initials(name);
            && |r| == (if |w| <= 2 then |w| else 2)
            && forall k | 0 <= k < |r| :: r[k] == if IsAsciiLower(w[k]) then (w[k] as int - 32) as char else w[k]
  {
    HeadsAreWordStarts(name, 0);
    assert name[0..] == name;
  }

  /** Leading and repeated spaces make empty pieces, which contribute nothing. */
  lemma InitialsSkipEmptyPieces()
    ensures Initials("  ana") == "A"
  {
    SplitAppend("", " ana", ' ');
    SplitAppend("", "ana", ' ');
    SplitWord("ana", ' ');
    assert "  ana" == "" + [' '] + " ana";
    assert " ana" == "" + [' '] + "ana";
  }
}
