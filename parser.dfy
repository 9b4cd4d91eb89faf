/** `parse_log_line`: one text line of the form
    `<date> <time> <level> UserID:<user> <message>` becomes a record of four
    strings, or `None` when the line is too short to index. */
module LogParser {
  import opened Wrappers
  import opened Text

  /** A parsed log entry: the four strings the analyzer passes around as a tuple. */
  datatype Record = Record(timestamp: string, level: string, userId: string, message: string)

  /** The tag the parser assumes in front of the user id. Only its length is
      used: the text actually present there is never compared with it. */
  const UserTag: string := "UserID:"

  /** Python's `s[n:]` for a non-negative `n`: empty once `n` passes the end. */
  function Drop(s: string, n: nat): (r: string)
    ensures |r| == if n <= |s| then |s| - n else 0
    ensures forall k :: 0 <= k < |r| ==> r[k] == s[n + k]
  {
    if n <= |s| then s[n..] else []
  }

  /** `parse_log_line`. Every `IndexError` of the source (fewer than four
      parts, or no `:` in the first word of the fourth part) is `None`. */
  function ParseLogLine(line: string): Option<Record>
  {
    FromParts(Split(line, ' ', 3))
  }

  /** The rest of `parse_log_line` once the line is split into at most four parts. */
  function FromParts(parts: seq<string>): Option<Record>
  {
    if |parts| < 4 then None
    else
      var fields := Split(Split(parts[3], ' ', -1)[0], ':', -1);
      if |fields| < 2 then None
      else
        var userId := fields[1];
        Some(Record(parts[0] + " " + parts[1], parts[2], userId,
                    Drop(parts[3], |UserTag + userId| + 1)))
  }

  /** A line with fewer than three spaces has fewer than four parts and is skipped. */
  lemma ParseFewerThanThreeSpaces(line: string)
    requires Occurrences(line, ' ') < 3
    ensures ParseLogLine(line) == None
  {
    SplitCount(line, ' ', 3);
  }

  /** A line with at least three spaces is `a b c rest` with `a`, `b`, `c`
      free of spaces: the parts `split(' ', 3)` yields. */
  lemma LineDecomposes(line: string)
    requires Occurrences(line, ' ') >= 3
    ensures |Split(line, ' ', 3)| == 4
    ensures var p := Split(line, ' ', 3);
      && ' ' !in p[0] && ' ' !in p[1] && ' ' !in p[2]
      && line == p[0] + " " + (p[1] + " " + (p[2] + " " + p[3]))
  {
    var p := Split(line, ' ', 3);
    assert |p| == 4 by { SplitCount(line, ' ', 3); }
    assert ' ' !in p[0] && ' ' !in p[1] && ' ' !in p[2] by { SplitInnerPieces(line, ' ', 3); }
    assert Join(p, ' ') == line by { SplitJoin(line, ' ', 3); }
    assert Join(p[3..], ' ') == p[3];
    assert Join(p[2..], ' ') == p[2] + " " + p[3] by {
      assert p[2..][1..] == p[3..];
    }
    assert Join(p[1..], ' ') == p[1] + " " + (p[2] + " " + p[3]) by {
      assert p[1..][1..] == p[2..];
    }
  }

  /** `split(' ', 3)` of `a b c rest`, for space-free `a`, `b`, `c`, is those four parts. */
  lemma SplitLine(a: string, b: string, c: string, rest: string)
    requires ' ' !in a && ' ' !in b && ' ' !in c
    ensures Split(a + " " + (b + " " + (c + " " + rest)), ' ', 3) == [a, b, c, rest]
  {
    var t3 := c + " " + rest;
    var t2 := b + " " + t3;
    calc {
      Split(a + " " + t2, ' ', 3);
      { SplitAtFirst(a, ' ', t2, 3); }
      [a] + Split(t2, ' ', 2);
      { SplitAtFirst(b, ' ', t3, 2); }
      [a] + ([b] + Split(t3, ' ', 1));
      { SplitAtFirst(c, ' ', rest, 1); }
      [a] + ([b] + ([c] + Split(rest, ' ', 0)));
      [a, b, c, rest];
    }
  }

  /** The text between the first colon of `word` and the next one (or the end). */
  function AfterColon(word: string): string
    requires ':' in word
  {
    TakeUntil(word[IndexOf(word, ':') + 1..], ':')
  }

  /** What the parser makes of `a b c rest`: it fails exactly when the first
      word of `rest` has no colon; otherwise the timestamp is `a b`, the level
      is `c` unchecked, the user id is what lies between the first and the
      second colon of that word (possibly empty), and the message is `rest`
      minus its first `|"UserID:"| + |user| + 1` characters, whatever they are. */
  lemma ParseShape(a: string, b: string, c: string, rest: string)
    requires ' ' !in a && ' ' !in b && ' ' !in c
    ensures ParseLogLine(a + " " + (b + " " + (c + " " + rest))).None?
            <==> ':' !in TakeUntil(rest, ' ')
    ensures ':' in TakeUntil(rest, ' ') ==>
      ParseLogLine(a + " " + (b + " " + (c + " " + rest)))
        == Some(Record(a + " " + b, c, AfterColon(TakeUntil(rest, ' ')),
                       Drop(rest, 8 + |AfterColon(TakeUntil(rest, ' '))|)))
  {
    assert ParseLogLine(a + " " + (b + " " + (c + " " + rest))) == FromParts([a, b, c, rest]) by {
      SplitLine(a, b, c, rest);
    }
    var word := TakeUntil(rest, ' ');
    assert Split(rest, ' ', -1)[0] == word by { SplitHead(rest, ' ', -1); }
    ColonFields(word);
  }

  /** Splitting a word at every colon gives a second field exactly when the
      word has a colon, and that field is the text after the first colon. */
  lemma ColonFields(word: string)
    ensures |Split(word, ':', -1)| >= 2 <==> ':' in word
    ensures ':' in word ==> Split(word, ':', -1)[1] == AfterColon(word)
  {
    if ':' in word {
      var i := IndexOf(word, ':');
      assert word == word[..i] + [':'] + word[i + 1..];
      SplitAtFirst(word[..i], ':', word[i + 1..], -1);
      SplitHead(word[i + 1..], ':', -1);
    }
  }

  /** For a line `date time level tag:user message`, the user id is read
      correctly whatever the tag is, but the tag itself is never checked: the
      message is what follows the first `|"UserID:"| + |user| + 1` characters
      of the fourth part, so it is cut in the wrong place for a tag of another
      length. */
  lemma ParseTagged(date: string, time: string, level: string, tag: string, user: string, message: string)
    requires ' ' !in date && ' ' !in time && ' ' !in level
    requires ' ' !in tag && ':' !in tag && ' ' !in user && ':' !in user
    ensures ParseLogLine(date + " " + (time + " " + (level + " " + (tag + ":" + user + " " + message))))
            == Some(Record(date + " " + time, level, user,
                           Drop(tag + ":" + user + " " + message, 8 + |user|)))
  {
    var word := tag + ":" + user;
    assert ' ' !in word && word[|tag|] == ':';
    ParseShape(date, time, level, word + " " + message);
    assert TakeUntil(word + " " + message, ' ') == word by {
      TakeUntilFirst(word, ' ', message);
    }
    assert IndexOf(word, ':') == |tag| && word[|tag| + 1..] == user by {
      CutAtFirst(tag, ':', user);
    }
    assert TakeUntil(user, ':') == user;
  }

  /** Round trip: a line written in the expected layout,
      `date time level UserID:user message`, gives back its fields. */
  lemma ParseWellFormed(date: string, time: string, level: string, user: string, message: string)
    requires ' ' !in date && ' ' !in time && ' ' !in level
    requires ' ' !in user && ':' !in user
    ensures ParseLogLine(date + " " + (time + " " + (level + " " + (UserTag + user + " " + message))))
            == Some(Record(date + " " + time, level, user, message))
  {
    var tag := "UserID";
    assert ' ' !in tag && ':' !in tag by {
      forall k | 0 <= k < |tag| ensures tag[k] != ' ' && tag[k] != ':' {
      }
    }
    assert UserTag + user == tag + ":" + user;
    ParseTagged(date, time, level, tag, user, message);
    var word := tag + ":" + user;
    assert Drop(word + " " + message, 8 + |user|) == message by {
      CutAtFirst(word, ' ', message);
    }
  }

  /** `[parse_log_line(line.strip()) for line in lines]`: each line read from
      the file is stripped of surrounding whitespace and parsed. */
  function ParseLines(lines: seq<string>): (logs: seq<Option<Record>>)
    ensures |logs| == |lines|
  {
    seq(|lines|, i requires 0 <= i < |lines| => ParseLogLine(Strip(lines[i])))
  }
}
