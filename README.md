# Box AI metadata-suggestions skill: a verified model of `box_util`

The skill is a webhook-triggered function. When a file is uploaded, it checks
the webhook signature. It then asks the document platform's AI for suggested
metadata values for the file and writes them onto the file's metadata
instance. This project models in Dafny the three pieces of the `box_util`
class that have rules, and proves properties of them:

- **Launch check** (`Webhook`). `_compute_signature` and `is_launch_safe`
  decide whether a request was signed with the primary key, or with the
  secondary key during key rotation. HMAC-SHA256 with base64 is the oracle
  `Crypto.sign`, whose output is ASCII text. UTF-8 encoding is the oracle
  `Crypto.utf8`. `hmac.compare_digest` is modelled with its exceptions: it
  raises `TypeError` for `None` or non-ASCII text, and otherwise it is
  equality. A key's attempt raises only when that key is used and the
  headers name version "1" of HmacSHA256: then a missing timestamp header
  raises `AttributeError`, and a missing or non-ASCII signature header for
  that key raises `TypeError` (`Webhook.Faults`). A missing version or
  algorithm header makes the attempt return `None`, and the check goes on.
- **Suggestion normalisation** (`OrderedDict`, `IsoDateTime`, `Suggestions`).
  The code drops falsy values. It brackets `docOwner`. It rewrites
  `effectiveDate` and `reviewDate` to midnight with a trailing "Z", or to
  the sentinel `1900-01-01T00:00:00Z` when the value does not parse. A dict is
  a sequence of key/value pairs in insertion order. Assigning to an existing
  key keeps its position. `datetime.fromisoformat` is an oracle that returns
  `None` where Python raises `ValueError`. `datetime.isoformat()`
  (`IsoDateTime.IsoFormat`, with `OffsetText` for the offset) and
  `str.replace("+00:00", "")` (`IsoDateTime.RemoveAll`) are modelled
  character by character; the example lemmas in the table show their text.
- **Create-or-update** (`MetadataUpsert`, `Templates`). `apply_template_to_file`
  is a method. It returns the remote calls it issues and whether it returned
  or raised. The remote system's answers are parameters. `get_template_by_key`
  and `delete_template_by_key` map a 404 answer to a normal return.

`Wrappers` holds the shared vocabulary: `Option`, the exceptions the code can
raise, the outcome of a call (returned or raised), and a remote answer
(`Ok` or `Err(status)`).

Behaviour of the code that the model keeps and a reader might not expect:

- A missing `box-delivery-timestamp` header raises `AttributeError`; the
  check does not return false. This happens only when a key is set and the
  headers announce version "1" of HmacSHA256.
- A missing or non-ASCII signature header raises `TypeError`; the check does
  not return false. This happens only when its key is tried: the primary key
  is set, or the secondary key is truthy and the primary key did not already
  accept. A header that is never read cannot raise.
- A timestamp with an offset other than UTC keeps its offset, and "Z" is
  appended after it: "2024-03-05T00:00:00+02:00Z". Only the text "+00:00" is
  removed. An offset of less than a minute east of UTC, such as
  "+00:00:30", therefore leaves ":30" before the "Z".
- `docOwner` stays a single string: the code adds "[ " and " ]" where the
  brackets are missing and does nothing else to it.
- The secondary key is tried only when it is truthy. An empty `BOX_KEY_2`
  counts as absent. An empty `BOX_KEY_1` is still used as a key.

## Model

| member | source | states |
|---|---|---|
| `Webhook.ComputeSignature` | skill/box_util.py:97-109 | The result is `None` exactly when the key is unset or the version/algorithm headers are not "1"/"HmacSHA256". It raises `AttributeError` exactly when the scheme is supported but the timestamp header is missing. Otherwise it is the signature of `body + utf8(timestamp)`. |
| `Webhook.CompareDigest` | skill/box_util.py:73 | `compare_digest` raises `TypeError` exactly when the header is `None` or either string is non-ASCII. Otherwise it returns true exactly when the two strings are equal. |
| `Webhook.TryKey` | skill/box_util.py:72-79 | One key's attempt raises exactly when `Faults` holds: `AttributeError` without a timestamp, `TypeError` otherwise. It accepts exactly when `Matches` holds, meaning the header equals the signature of the body and timestamp. |
| `Webhook.IsLaunchSafe` | skill/box_util.py:71-82 | Accepts exactly when the primary key matches, or when the primary check does not raise, the secondary key is truthy and it matches. Raises exactly when the primary check faults, or when the primary does not match and the truthy secondary check faults. |
| `Webhook.NoSecondaryKeyOnlyPrimaryAccepts` | skill/box_util.py:76-82 | Without a truthy secondary key, the request is accepted exactly when the primary key matches. A primary mismatch is never accepted. |
| `Webhook.UnsupportedSchemeRejects` | skill/box_util.py:97-102 | With no usable key, or headers naming another scheme, the check returns false and does not raise. |
| `Webhook.SignatureSeesOnlyConcatenation` | skill/box_util.py:104-109 | Two requests whose body followed by the UTF-8 timestamp are equal get the same signature result. |
| `Webhook.RotationAcceptsSecondary` | skill/box_util.py:76-79 | A request signed only for the secondary key is accepted exactly when that key is non-empty and the primary check does not raise. |
| `OrderedDict.Put` | skill/box_util.py:305-309 | `d[k] = v` keeps an existing key's position and the dict's keys, appends a new key at the end, and leaves other entries unchanged. |
| `OrderedDict.PutLookup` | skill/box_util.py:295 | After `d[k] = v` the keys stay distinct, `k` maps to `v`, and every other key keeps its value. |
| `OrderedDict.Lookup` | skill/box_util.py:287-288 | `data[k]` after `k in data`: the lookup finds nothing exactly when the key is absent, and what it finds is the value of an entry with that key. |
| `IsoDateTime.Midnight` | skill/box_util.py:304 | `replace(hour=0).replace(minute=0).replace(second=0)` zeroes hour, minute and second, and keeps the date, microseconds and offset. |
| `IsoDateTime.PadFits` | skill/box_util.py:306 | Zero padding of a number below 10^width to `width` characters gives exactly `width` characters. |
| `IsoDateTime.FixedWidths` | skill/box_util.py:306 | For every valid datetime, `isoformat()` writes the date in 10 characters and the time in 8, or in 15 when there are microseconds: four-digit year, two-digit fields, six-digit fraction. |
| `IsoDateTime.DateTextExample` | skill/box_util.py:306 | `IsoFormat`, the model of `datetime.isoformat()`, writes the year with four digits and month and day with two: 2024-03-05 is "2024-03-05". |
| `IsoDateTime.FractionTextExample` | skill/box_util.py:306 | Microseconds are written as a dot and six digits: 5 is ".000005". |
| `IsoDateTime.TwoHoursOffsetText` | skill/box_util.py:306 | `OffsetText`, the offset part of `isoformat()`, writes two hours east as "+02:00". |
| `IsoDateTime.WestOffsetTextExample` | skill/box_util.py:306 | An offset west of UTC gets a '-' sign: five and a half hours west is "-05:30". |
| `IsoDateTime.IsoFormatExample` | skill/box_util.py:306 | `isoformat()` of 2024-03-05 00:00:00.000005 at UTC-05:30 is "2024-03-05T00:00:00.000005-05:30". |
| `IsoDateTime.SubMinuteOffsetExample` | skill/box_util.py:306 | Thirty seconds east is written "+00:00:30", and removing "+00:00" from it leaves ":30". |
| `IsoDateTime.RemoveAllOnePassExample` | skill/box_util.py:306 | `RemoveAll`, the model of `str.replace(pattern, "")`, scans once from the left: "+0+00:0000:00" becomes "+000:00". |
| `IsoDateTime.RemoveAllKeepsPlusFreePrefix` | skill/box_util.py:306 | Removing a pattern that starts with '+' leaves text without '+' untouched, wherever it stands before the rest. |
| `IsoDateTime.RemoveUtcFromOffset` | skill/box_util.py:306 | Removing "+00:00" from an offset's `isoformat` text removes the zero offset entirely. For an offset under a minute east of UTC, it leaves only the seconds. Any other offset is kept whole. |
| `IsoDateTime.IsoFormatWithoutUtc` | skill/box_util.py:306 | `isoformat().replace("+00:00", "")` keeps the date and time text and changes only the offset, as `RemoveUtcFromOffset` says. |
| `Suggestions.DropFalsy` | skill/box_util.py:285 | No empty value remains after the filter. |
| `Suggestions.DropFalsyKeepsOrder` | skill/box_util.py:285 | The filter keeps the input's order: two kept entries come from input entries in the same order, with the same keys and values. |
| `Suggestions.DropFalsyLookup` | skill/box_util.py:285 | After the filter, keys stay distinct. A key is present exactly when its value was truthy, and it keeps that value. No key is new. |
| `Suggestions.BracketOwner` | skill/box_util.py:287-295 | The result starts with '[' and ends with ']'. A value that already has both brackets is unchanged. Otherwise the result is "[ " only if the value lacks '[', then the value, then " ]" only if the value lacks ']'. |
| `Suggestions.BracketOwnerIdempotent` | skill/box_util.py:287-295 | Bracketing twice gives the same result as bracketing once. |
| `Suggestions.BracketOwnerExamples` | skill/box_util.py:289-293 | "Aaron" becomes "[ Aaron ]", and "[ Aaron ]" is unchanged. |
| `Suggestions.NormaliseDate` | skill/box_util.py:301-309 | A value that does not parse becomes exactly "1900-01-01T00:00:00Z". Every result ends with 'Z'. |
| `Suggestions.MidnightTimeText` | skill/box_util.py:304 | After zeroing, `isoformat` writes "00:00:00" as the time. The microseconds are still written. |
| `Suggestions.NormaliseParsedDate` | skill/box_util.py:304-307 | A parsed date becomes its calendar day, then "T00:00:00", then its microseconds if any, then what is left of its offset after the "+00:00" removal, then "Z". |
| `Suggestions.UtcDateBecomesMidnightZ` | skill/box_util.py:304-307 | A naive or UTC timestamp becomes its day at "T00:00:00", then its microseconds if any, then "Z". |
| `Suggestions.OtherOffsetSurvives` | skill/box_util.py:315-318 | An offset of one minute or more, east or west, is kept in full, and "Z" follows it. |
| `Suggestions.UtcDateExample` | skill/box_util.py:303-307 | "2024-03-05T10:30:00+00:00" becomes "2024-03-05T00:00:00Z". |
| `Suggestions.EastOffsetDateExample` | skill/box_util.py:314-318 | "2024-03-05T10:30:00+02:00" becomes "2024-03-05T00:00:00+02:00Z". |
| `Suggestions.Rewrite` | skill/box_util.py:287-295 | `data[key] = f(data[key])` under `if key in data` keeps the keys in order. Without the key it changes nothing. With it, every entry is either unchanged or `key` holding `f` of its value. |
| `Suggestions.RewriteLookup` | skill/box_util.py:301-309 | Rewriting one key in place keeps the keys, their order and their distinctness. It changes only that key's value. |
| `Suggestions.Normalise` | skill/box_util.py:285-320 | The values sent to the remote system have the keys of the truthy suggestions, in their order, and none of them is empty: bracketing and date rewriting never produce an empty value. |
| `Suggestions.NormaliseLookup` | skill/box_util.py:285-320 | After normalisation, the keys are those of the truthy suggestions, in their original order and distinct. Each key holds its suggested value after its field's rewrite: brackets for `docOwner`, date normalisation for the two dates, unchanged otherwise. |
| `MetadataUpsert.BracketOwnerEntry` | skill/box_util.py:287-295 | The `docOwner` block rewrites exactly the `docOwner` entry, in place, as `BracketOwner` does. |
| `MetadataUpsert.NormaliseDateEntry` | skill/box_util.py:301-320 | The try/except for one date key rewrites exactly that entry, in place, as `NormaliseDate` does. |
| `MetadataUpsert.ReplaceOps` | skill/box_util.py:337-345 | The loop builds one "replace" op per entry, in dict order, with path "/" + key and the entry's value. |
| `MetadataUpsert.ReplaceOpsCoverFields` | skill/box_util.py:339-345 | There is an op replacing `k` with `v` exactly when the normalised values map `k` to `v`, and no two ops share a path. |
| `MetadataUpsert.ApplyTemplateToFile` | skill/box_util.py:281-359 | The first call is always a create with the normalised values. A successful create issues nothing more and returns. A 409 issues exactly one update, which replaces every normalised field in order, and the method returns even if that update fails. Any other create failure re-raises its status. |
| `Templates.GetTemplateByKey` | skill/box_util.py:111-124 | Returns the template on success. Returns `None` exactly when the answer is 404. Raises exactly for any other failure, with that status. |
| `Templates.DeleteTemplateByKey` | skill/box_util.py:127-138 | Returns normally exactly on success or 404. Otherwise it re-raises the failure's status. |
| `Templates.NotFoundNeverEscapes` | skill/box_util.py:111-138 | Neither call lets a 404 escape. Both re-raise every other status unchanged. |

## Left out

- `skill/main.py`, the HTTP entry point, is not part of this model. This
  covers request parsing, the 403/200/500 response mapping, and the
  template get-or-create sequence it runs. It has no logic of its own: it
  calls `box_util` methods in sequence, some modelled here and some listed
  below as left out.
- `__init__`, `_get_basic_client` and `_get_jwt_client` read environment
  variables and a JWT configuration file. The two keys are the
  `SigningKeys` parameter instead.
- `create_invoice_po_template` is a fixed list of template fields handed to
  the SDK. It has no behaviour to verify.
- `get_metadata_suggestions_for_file` is a pass-through call to the AI
  service. Its suggestions are the `data` input of `ApplyTemplateToFile`.
- `get_file_metadata` and `search_metadata` call a `self.client` attribute
  that the class never sets, and `search_metadata` also uses undefined names.
  `get_file_metadata` therefore always returns `None` through its broad
  `except`. Its result only reaches `existing_data`, which is logged and
  otherwise ignored.
- HMAC-SHA256, base64 and UTF-8 encoding are oracles. So the model cannot
  show that changing one byte of the body makes the signature differ. That
  needs collision resistance, which an oracle does not have.
- `Webhook.CompareDigest`: does not model the constant-time comparison,
  which is a property of timing.
- ISO-8601 parsing inside `datetime.fromisoformat` is an oracle. The model
  assumes it only raises `ValueError`, which the code catches.
- Request headers are a map with exact key matching. The web framework's
  case-insensitive header lookup is not modelled.
- The SDK can raise exceptions other than `BoxAPIError`, for example network
  errors. The model does not include them. They would propagate from every
  modelled call.
- Suggested values are strings or `None`. Lists and numbers from the AI
  response are not modelled. The code annotates the values as `Dict[str, str]`.
- Logging, `print` and the unused `skills_error_enum` table are not modelled.
- Two concurrent invocations for the same file can race between create and
  update. This is not modelled: each invocation runs alone.
