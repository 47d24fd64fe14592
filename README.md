# Validators of the PyWebIO input demo

This project models the only decision logic in `demos/input_usage.py`, the
tutorial page of PyWebIO's input functions: its two validation callbacks.
PyWebIO's convention for a validator is that returning `None` accepts the
submitted value and returning anything else rejects it, the returned value
being the message shown to the user.

- `check_age(p)` validates the NUMBER input "How old are you?" (and the age
  input of the later group). It rejects ages below 10 with `'Too young!!'`,
  ages above 60 with `'Too old!!'`, and accepts the rest. Modelled by
  `InputUsage.CheckAge`, returning `Option<string>`.
- `check_form(data)` validates the "Basic info" input group, whose answer is a
  mapping with a text `name` and a NUMBER `age` (modelled by the datatype
  `Form`). It rejects a name longer than 6 characters with
  `('name', '名字太长！')`; otherwise it rejects an age `<= 0` with
  `('age', '年龄不能为负数！')`; otherwise it accepts. The pair is the datatype
  `FieldError(field, message)`. Modelled by `InputUsage.CheckForm`.

Beside the two validators, the model gives `check_form` an independent
reference definition: an ordered table of rules (`FormRules`) and a
first-match search over it (`FirstViolation`). A lemma shows that `CheckForm`
is that search, so `CheckForm` reports the name rule whenever it is broken,
whatever the age.

The group's age input is itself guarded by `check_age` (line 144). The model
states how the two validators combine as facts about the two functions. Any
age `check_age` accepts is positive, so the age rule of `check_form` can then
never fire. Note also that the form `{name: "Bob", age: 5}` is accepted by
`check_form` alone, but not by the group as the demo declares it, because
`check_age` rejects the age 5 (`GroupAcceptance`).

Python's `len` counts code points. A Dafny `char` is a Unicode scalar value,
so `|name|` is the same count for every name made of Unicode scalar values.
Names holding an unpaired surrogate cannot be written as a Dafny `string`,
but `check_form` reads only the name's length, and every length is reachable
with scalar values, so no outcome of the validator is lost.

Files: `wrappers.dfy` (the `Option` datatype), `input_usage.dfy` (module
`InputUsage`).

## Model

| member | source | states |
|---|---|---|
| `InputUsage.CheckAge` | demos/input_usage.py:92-96 | accepts exactly the ages 10..60, both ends included; the result is `'Too young!!'` exactly for ages below 10 and `'Too old!!'` exactly for ages above 60 |
| `InputUsage.CheckAgeOutcomesReachable` | demos/input_usage.py:92-98 | each of the three outcomes occurs; the illegal values the input's help text suggests are rejected, 8 as too young and 65 as too old, and the ordinary age 30 is accepted |
| `InputUsage.CheckAgeAcceptsInterval` | demos/input_usage.py:92-96 | the accepted ages form an interval: any age between two accepted ages is accepted |
| `InputUsage.CheckAgeBoundaries` | demos/input_usage.py:93-96 | the bounds 10 and 60 are accepted; 9 is rejected as too young and 61 as too old |
| `InputUsage.CheckForm` | demos/input_usage.py:136-140 | a rejection always names one of the group's two fields; the name error is returned exactly when the name has more than 6 characters, whatever the age; the age error exactly when the name has at most 6 characters and the age is `<= 0` (0 included); it accepts exactly when the name has at most 6 characters and the age is positive |
| `InputUsage.CheckFormOutcomesReachable` | demos/input_usage.py:136-140 | "Alexander"/30 gives the name error, "Bob"/-1 gives the age error and "Bob"/5 is accepted, so each outcome occurs; and there is a form breaking both rules for which the name error is reported |
| `InputUsage.CheckFormAcceptanceMonotone` | demos/input_usage.py:136-140 | if a form is accepted, every form with a name no longer and an age no smaller is accepted too |
| `InputUsage.FirstViolation` | demos/input_usage.py:136-140 | the first-match search over an ordered rule table: `None` exactly when every rule holds; otherwise the report of some rule that is broken while every rule before it holds |
| `InputUsage.CheckFormIsFirstViolation` | demos/input_usage.py:136-140 | `check_form` equals the first-match search over the rule table "name at most 6 characters, then age positive" |
| `InputUsage.CheckedAgeLeavesOnlyNameRule` | demos/input_usage.py:139-144 | when `check_age` accepts the age, `check_form` can only report the name error, and accepts exactly when the name has at most 6 characters |
| `InputUsage.GroupAcceptance` | demos/input_usage.py:142-145 | a submission passes both the age field's validator and the group validator exactly when the name has at most 6 characters and the age is in 10..60; some form accepted by `check_form` alone is rejected by `check_age` |

## Left out

- The body of `main` (demos/input_usage.py:13-147): the calls to `input`, `select`, `checkbox`, `textarea`, `file_upload`, `input_group`, `put_markdown`, `put_text`, `set_title` and `set_auto_scroll_bottom` are blocking UI and session I/O inside the PyWebIO library, whose code is not part of this model.
- The re-prompting of the user until a validator accepts, and the order in which `input_group` runs field validators and the group validator: both are library behaviour; the combination lemmas are stated about the two functions only.
- `start_server(main, debug=True, port=8080)` (line 151): server start-up and networking.
- The markdown and tutorial text, the Codemirror options (lines 111-114) and the file-upload type filter: content and configuration without logic.
- Names containing an unpaired surrogate: a Dafny `string` cannot hold one; only the name's length matters to `check_form`, and every length is still reachable.
- Values other than integers reaching `check_age` or the group's `age` (for instance an empty NUMBER input): the NUMBER input type is taken to deliver an integer, and comparing anything else in Python is library- and runtime-dependent.
