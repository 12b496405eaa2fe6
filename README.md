# Time-expression normaliser and student record, in Dafny

This project models two small units of a Spanish-language teaching repository.

**Horas** (`horas.dfy`) models the per-match replacement function of the time normaliser.
Each match of the time pattern is replaced by a 24-hour `HH:MM` time. When the match is out
of range, its own text is kept. The pattern has four alternatives, and the datatype
`TimeMatch` has one constructor for each:

- a period phrase: `H[:MM] de la mañana|tarde|noche|madrugada` or `H[:MM] del mediodía`;
- a quarter phrase: `H en punto|y cuarto|y media|menos cuarto`;
- the `HhM[m]` shorthand;
- the standard `HH:MM`.

Each constructor carries the integer values of its groups and, for the phrases, the
lower-cased qualifier text. `Normalize` is the decision procedure: it picks a pair
(hour, minute) in 0..23 × 0..59, or rejects the match. `Format` is the `{h:02d}:{m:02d}`
rendering. `SustituirHora` combines the two. The substitution over one line is modelled on
segments. A line is a sequence of plain text and matches, and `Sub` replaces each match.

The properties are proved against independent references:

- period phrases against a 12-hour clock (`Clock24`);
- quarter phrases against minute arithmetic on a 12-hour dial (`QuarterRule`);
- the rendering against a reader of `HH:MM` text (`ParseHHMM`).

**Alumnos** (`alumno.dfy`) models the class `Alumno`. It has the identifier `numIden`
(-1 when unknown), the name `nombre`, and the scores `notas`. The methods are:

- the constructor, which keeps its own copy of the scores;
- `Add`, for `+`: it returns a fresh record with one more score, or a type error for a
  non-number, and leaves the receiver as it was;
- `Media`: the mean, 0 when there are no scores.

Notes on the code as written:

- The "del mediodía" guard is `12 <= h <= 3`. No hour meets it, not even 12, so every
  "del mediodía" match is kept unchanged. The model keeps this behaviour
  (`MediodiaIsNeverNormalized`).
- The quarter-phrase table is looked up with the matched phrase text. Words separated by
  more than one space or by a tab have no entry, so such a match is kept unchanged.
  `QuarterRule` states this: a match is accepted only when the phrase is one of the four
  table keys.
- The "menos cuarto" adjustment tests substring containment (`Contains`). Of the four table
  keys, only "menos cuarto" contains that text.
- Normalisation is not idempotent on whole lines. "5 y media de la tarde" becomes
  "05:30 de la tarde", and a second pass turns that into "17:30". The model only claims
  that a canonical `HH:MM` match is replaced by itself (`CanonicalIsFixedPoint`).

## Model

| member | source | states |
|---|---|---|
| Horas.ConvPalabrasMinuto | horas.py:13-18 | exactly the four phrases have an entry: en punto 0, y cuarto 15, y media 30, menos cuarto 45, each value belonging to its phrase alone |
| Horas.Contains | horas.py:86 | true exactly when `sub` occurs in `s` at some index |
| Horas.Normalize | horas.py:36-123 | every accepted match gives an hour in 0..23 and a minute in 0..59 |
| Horas.Pad2 | horas.py:121 | the `02d` text is all digits and reads back as the number; below 100 it has two characters |
| Horas.Format | horas.py:119-121 | for two-digit values the text is two digits, ':', two digits, and reads back as the same hour and minute |
| Horas.SustituirHora | horas.py:36-123 | a rejected match is replaced by its own text; an accepted one by a canonical `HH:MM` that reads back as the normalised pair |
| Horas.StandardRule | horas.py:109-117 | `HH:MM` is accepted iff hour <= 23 and minute <= 59, and then keeps both |
| Horas.ShorthandRule | horas.py:99-107 | `HhM` is accepted iff hour <= 23 and minute <= 59, then keeps both; a missing minute group (`MinuteOrZero`) is the same as minute 0 |
| Horas.CanonicalIsFixedPoint | horas.py:109-121 | a canonical time matched as `HH:MM` is replaced by itself |
| Horas.QuarterRule | horas.py:74-97 | a quarter phrase is accepted iff the hour is 1..12 and the phrase is in the table; the result is the hour plus the phrase's offset (0, 15, 30, or -15 for "menos cuarto", defined apart from the table) on a 12-hour dial read as 00:00..11:59 |
| Horas.QuarterHourAndMinute | horas.py:79-97 | accepted quarter phrases give hour 0..11 and minute 0, 15, 30 or 45 for en punto, y cuarto, y media, menos cuarto; "menos cuarto" maps 1 to 0 and h to h-1 otherwise; the other phrases map 12 to 0 and keep 1..11 |
| Horas.PeriodRule | horas.py:40-72 | a period phrase is accepted iff the hour is 1..12, the minute <= 59 and the period admits the hour (mañana 4..12, tarde 3..8, noche 8..12 or 1..4, madrugada 1..6); the hour is then read on a 12-hour clock, after noon only for tarde and for 8..11 de la noche; the minute is kept, a missing minute group (`MinuteOrZero`) being the same as minute 0 |
| Horas.PeriodHourWindows | horas.py:50-69 | mañana yields 0 or 4..11, tarde 15..20, noche 0..4 or 20..23, madrugada 1..6 |
| Horas.QuarterExamples | horas.py:74-123 | "5 y cuarto", "5 y media" and "1 menos cuarto" become 05:15, 05:30 and 00:45; "5 y  cuarto" (two spaces) is kept |
| Horas.OtherFormExamples | horas.py:40-123 | "9 de la mañana" and "14h30" become 09:00 and 14:30; "25:99" is kept |
| Horas.MediodiaIsNeverNormalized | horas.py:54-56 | every "del mediodía" match is rejected and keeps its text, whatever the hour |
| Horas.Rewrite | horas.py:131 | same number of segments, plain segments unchanged in place, each match replaced by its substitution |
| Horas.SubConcat | horas.py:131 | `Sub`, the model of the line substitution, distributes over concatenation of segment sequences |
| Horas.SubIsOriginalOfRewrite | horas.py:131 | the substituted line `Sub(line)` is the text of the rewritten segments |
| Horas.PlainTextPreserved | horas.py:131 | each plain segment's text appears unchanged in the output, right after the output of the segments before it |
| Horas.RejectedLineUnchanged | horas.py:131 | a line whose matches are all rejected is output exactly as read |
| Alumnos.Mean | alumno.py:34 | 0 for no scores; otherwise mean times count equals the sum |
| Alumnos.SumAppend | alumno.py:28-34 | appending a score adds it to the sum |
| Alumnos.SumConstant | alumno.py:34 | n equal scores c sum to n*c |
| Alumnos.MeanConstant | alumno.py:34 | the mean of non-empty equal scores is that score |
| Alumnos.SumBounds | alumno.py:34 | scores in [lo, hi] sum to between n*lo and n*hi |
| Alumnos.MeanBounds | alumno.py:34 | the mean of non-empty scores in [lo, hi] lies in [lo, hi] |
| Alumnos.MeanAfterAppend | alumno.py:28-34 | after appending x, the mean is (old sum + x) / (old count + 1) |
| Alumnos.MeanExamples | alumno.py:126-160 | means of [], [7,8,9], [5.5], five 10s, [-1,3] and [7,8] are 0, 8, 5.5, 10, 1 and 7.5 (the last from the display test) |
| Alumnos.Alumno.constructor | alumno.py:15-18 | stores the name, the identifier (default -1) and the scores (default none) |
| Alumnos.Alumno.Add | alumno.py:20-28 | a type error iff the operand is not a number; otherwise a fresh record with the same name and identifier and the scores plus the operand; the receiver is unchanged |
| Alumnos.Alumno.Media | alumno.py:30-34 | 0 with no scores; otherwise mean times count equals the sum of the scores |
| Alumnos.DefaultScoresNotShared | alumno.py:91-105 | default records keep their name and start with identifier -1 and no scores; adding to one does not give scores to another |
| Alumnos.ScoresAreCopied | alumno.py:18 | overwriting any entry of the caller's list after construction does not change the record's scores |

## Left out

- The pattern engine behind `RE_TIEMPO_COMPLETO` (horas.py:22-34) is not modelled: leftmost-alternative search, word boundaries, case folding of "ñ"/"í", and `\d` over non-ASCII digits. A match arrives already split into its groups, and a line arrives already split into plain text and matches.
- Horas.Normalize: the group values are unbounded naturals. The pattern limits them to at most two digits, which the model does not need.
- File opening, line reading and writing in `normalizaHoras` (horas.py:126-132) are I/O.
- `leeAlumnos` (alumno.py:52-85) is left out: it is file I/O, a line pattern and `float` parsing, and it turns every error into an empty dictionary with a printed diagnostic.
- `__repr__` and `__str__` (alumno.py:36-49) are left out. They depend on Python's float `repr` and on `:.1f` rounding, and the `eval(repr(...))` round trip of the tests depends on the Python evaluator.
- Scores are Dafny reals, so the binary floating-point rounding of `sum` and `/` is not modelled. Python's integer 0, returned for an empty list, is the real 0.
- Alumnos.Alumno.Add: `isinstance(other, (int, float))` is modelled as the two-case `Operand` type, `Number` or `NotANumber`. Which Python objects count as numbers (including booleans) is not modelled.
- The unittest and doctest harness (alumno.py:88-177) is left out. The contracts and lemmas above state the tests of the constructor, `+` and `media`; the concrete `+` sequence of `test_add` (alumno.py:108-124) is covered by `Add`'s general contract. The tests of `__repr__` and `__str__` (alumno.py:143-169, apart from the 7.5 mean) and the `leeAlumnos` doctest (alumno.py:57-63) are left out together with those operations.
