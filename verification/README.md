# Disaster tweets embedding: a verified model of the formatter and the batched encoder

The script `Disaster_Tweets/embed/embed.py` reads a table of tweets, turns every
row into one descriptive line of text, sends the lines in batches to a
pretrained sentence-embedding model and stacks the vectors into one matrix.
This project models the two parts of it that the repository owns:

- the row formatter `format_row_as_string`, which renders a row as
  `Tweet ID: <id>, Keyword: <keyword|N/A>, Location: <location|N/A>, Text: <text>.`
  (module `Formatter`, a pure function);
- the nested `encode(strings, batch_size)`, which walks the lines in chunks of
  `batch_size`, drops empty lines from each chunk, calls the model once per
  chunk and concatenates the per-chunk results (module `Encoder`, a method with
  a loop over Python's `range`, proved against a specification function);
- their composition in `main` (module `Embed`), without the file input and
  output.

The embedding model is a parameter: a function `f` from a string to an opaque
vector type `V`; one call on a batch returns `f` of every string of the batch,
in order. Python's `range(0, n, b)` and its clamping slice `s[i:i+b]` are
written out (`Encoder.Range`, `Encoder.PySlice`). The concatenation of the
per-chunk arrays, `np.concatenate(all_embeddings, axis=0)` (embed.py:31), is
`Encoder.Concat`; its properties are stated by `Encoder.ChunksCover` and
`Encoder.EncodePiecesIsEncodeWhole`. The `N/A` substitution of a missing
keyword or location (embed.py:9-10) is `Formatter.OrPlaceholder`, described by
`Formatter.PlaceholderShownIff`. The exceptions the code can
raise become `Failure` values: a zero batch size (`range` refuses a zero step)
and an encoding that produced no chunk at all (`np.concatenate` of an empty
list), which happens for an empty input and for a negative batch size.

An empty table does not give a zero-row matrix: no chunk is produced, an empty
list of arrays cannot be concatenated, and the script raises. The model keeps
that behaviour (`Encoder.Encode`, `Embed.EmbedTable`).

## Model

| member | source | states |
|---|---|---|
| `Formatter.FormatRow` | Disaster_Tweets/embed/embed.py:7-12 | every formatted line starts with `Tweet ID: ` and ends with `.`, so it is longer than the label and never empty |
| `Formatter.FormatRowFitsTemplate` | Disaster_Tweets/embed/embed.py:7-12 | the line has exactly the length of its pieces and holds, at their offsets and in this order, the id label, the id, the keyword label, the keyword or `N/A`, the location label, the location or `N/A`, the text label, the text and the final `.` |
| `Formatter.TemplateDeterminesLine` | Disaster_Tweets/embed/embed.py:7-12 | conversely, any string laid out like that for a row is that row's formatted line, so the positional template and the formatter agree exactly |
| `Formatter.PlaceholderShownIff` | Disaster_Tweets/embed/embed.py:9-10 | a keyword or location is shown as `N/A` exactly when it is missing or is itself `N/A`; a present value is shown verbatim |
| `Formatter.FormatRowNonEmpty` | Disaster_Tweets/embed/embed.py:8-11 | no formatted line is empty |
| `Encoder.Range` | Disaster_Tweets/embed/embed.py:27 | the chunk starts are `start, start + b, start + 2b, ...`, each below the stop, and the next one would not be |
| `Encoder.RangeStartsIff` | Disaster_Tweets/embed/embed.py:27 | a number is a chunk start exactly when it is a multiple of the batch size below the input length |
| `Encoder.ChunkShape` | Disaster_Tweets/embed/embed.py:27-28 | there is one chunk per start; chunk k is the slice `strings[k*b : min(k*b + b, n)]` and holds between 1 and b strings |
| `Encoder.ChunksCover` | Disaster_Tweets/embed/embed.py:27-28 | concatenating the chunks in order gives back the input exactly |
| `Encoder.Filter` | Disaster_Tweets/embed/embed.py:28 | the kept strings are exactly the non-empty strings of the input, and there are no more of them than input strings |
| `Encoder.FilterAppend` | Disaster_Tweets/embed/embed.py:28 | filtering two consecutive pieces separately and concatenating equals filtering their concatenation |
| `Encoder.FilterCount` | Disaster_Tweets/embed/embed.py:28 | the filter keeps as many strings as the input has minus the number of empty strings in it |
| `Encoder.FilterIdentityIff` | Disaster_Tweets/embed/embed.py:28 | the filter leaves its input unchanged if and only if no string in it is empty |
| `Encoder.EncodeBatch` | Disaster_Tweets/embed/embed.py:29 | one model call on a batch yields one vector per string, vector i being the model's vector of string i |
| `Encoder.EncodePiecesIsEncodeWhole` | Disaster_Tweets/embed/embed.py:28-31 | for any cut of a list into consecutive pieces, encoding the filtered pieces one by one and concatenating equals encoding the filtered whole |
| `Encoder.BatchingInvariance` | Disaster_Tweets/embed/embed.py:25-32 | for every positive batch size, the concatenated chunk results are the model applied to the non-empty strings in input order |
| `Encoder.Encode` | Disaster_Tweets/embed/embed.py:25-32 | batch size 0 fails in `range`; a negative batch size or an empty input fails at concatenation; otherwise the result is the model applied to the non-empty strings in input order, with as many rows as there are non-empty strings, whatever the batch size |
| `Embed.FormattedLinesSurviveFilter` | Disaster_Tweets/embed/embed.py:19-28 | the encoder's filter keeps every formatted line, so it drops nothing in the script |
| `Embed.EmbedTable` | Disaster_Tweets/embed/embed.py:14-35 | an empty table fails at concatenation; any other table yields exactly one vector per row, row i of the matrix being the vector of the formatted line of table row i |

## Left out

- Reading the CSV file with pandas (embed.py:16): the table is given as a sequence of `Formatter.Record` values, and `df.apply` (embed.py:19) is the map `Formatter.FormatAll`.
- Pandas' null test (embed.py:9-10) is modelled as presence in an `Option`; the rendering of a non-string cell (the numeric `id`) is taken as already done, so `id` is a string.
- A null `text` cell: the code renders it as pandas' `nan` without a null test; the model takes `text` as a required string.
- Loading the pretrained model and moving it to the GPU (embed.py:22): a foreign library and hardware.
- The neural inference inside `angle.encode` (embed.py:29): it is the parameter function `f`, and the vectors are of an opaque type `V` (their floating-point values are not modelled).
- `Encoder.EncodeBatch`: a call on an empty batch (a chunk whose strings are all empty) is taken to return no vectors; what the real library does then is not modelled.
- Saving the matrix with `np.save` and the `print` calls (embed.py:36-38): file and console output.
- The command-line handling (embed.py:40-44): process plumbing.
