# Anomaly-detection inference endpoint and log-replay client, in Dafny

This project models the two pieces of control logic of a log anomaly-detection
system.

* **The `/predict` handler** (module `PredictService`, `predict_service.dfy`).
  The handler receives a JSON record with `Hostname`, `Process` and `Message`.
  It checks that the three keys are present. It encodes hostname and process
  with a trained categorical encoder. If the encoder reports *unknown
  categories*, it falls back to a row of zeros of the encoder's output width.
  It vectorizes the message, checks that the two blocks have the same number
  of rows, joins them side by side and asks the classifier for a label.
  Each failing stage gives its own HTTP status and error text.
  The handler is a pure function, `HandlePredict(artifacts, body)`. The three
  artifacts are function values. The encoder and the vectorizer return a
  `Transformed` outcome: the shape of the matrix they produced, a `ValueError`
  with its message, or another exception. The classifier returns a `Predicted`
  outcome: the array of labels, or an exception with its message.
  The result holds the response and the list of calls made into the artifacts.
  That list is how the lemmas say which stage runs when.
* **The log-replay client** (module `SimulateLogs`, `simulate_logs.dfy`).
  `connect_to_logstash` is a bounded retry loop. `send_logs` skips the CSV
  header and sends each data row as `",".join(row) + "\n"`. It counts each
  successful send. A row whose send raises a socket error is dropped. The
  client then reconnects, and it either resumes with the next row or stops.
  Both are methods with loops (`ConnectToLogstash`, `SendLogs`). A `Network`
  value replaces the sockets: it says whether the n-th connection attempt of
  the run succeeds, and what `sendall` does with the i-th data row. The
  methods are proved equal to the specification functions `ConnectPolicy` and
  `ReplaySpec`. The lemmas state what those functions guarantee.

Two behaviours of the client are worth stating on their own:

* A failed reconnect sets the socket to `None` and breaks the loop
  (simulator/simulate_logs.py:62-65). The `finally` block reports the total
  only when the socket is set (simulator/simulate_logs.py:79-81), so that run
  ends without a "Total lines sent" report (`End.Aborted`).
* A row whose send raises a socket error is dropped, not resent, and is not
  counted, even when the reconnect succeeds. `DroppedRowScenario` shows this
  on three data rows: two lines are sent and counted.

## Model

| member | source | states |
|---|---|---|
| `PredictService.HandlePredict` | ml_inference/predict_service.py:28-94 | Status 400 is returned exactly when the key check rejects the body. At most three artifact calls are made. The classifier call can only be the third. A 200 answer always comes after all three calls. Fixed-message errors carry no extra text. |
| `PredictService.ContainsIffOccurs` | ml_inference/predict_service.py:53 | The string test `sub in s` is true exactly when `sub` occurs at some position of `s`. |
| `PredictService.FalsyBodyRejected` | ml_inference/predict_service.py:33-35 | A missing, null, empty or otherwise falsy body gives 400 with "Missing required fields: Hostname, Process, Message". No artifact is called. |
| `PredictService.ObjectBodyValidation` | ml_inference/predict_service.py:33-35 | For an object body, the fixed 400 error is returned exactly when one of `Hostname`, `Process` or `Message` is absent. In that case no artifact is called. |
| `PredictService.ValuesPassedUnchanged` | ml_inference/predict_service.py:37-67 | Only the presence of the keys is checked. The encoder gets the Hostname and Process values exactly as they are, whatever their JSON type. The vectorizer, if reached, gets the Message value as it is. Neither a 400 nor an internal error is returned before the encoder runs. |
| `PredictService.NonObjectBody` | ml_inference/predict_service.py:33-41 | A truthy body that is not an object never reaches the artifacts. It gives 400 when the membership test fails. Otherwise `in` (on a number or boolean) or indexing (on a list or string) raises, and the result is 500 "An internal server error occurred: ". |
| `PredictService.UnknownCategoryFallback` | ml_inference/predict_service.py:49-57 | If the encoder raises a ValueError mentioning "unknown categories", the request does not end with a categorical-encoding error, and the vectorizer is called next. If the vectorizer returns one row of width w, the classifier gets a 1 x C zero block followed by the message row, of total width C + w. |
| `PredictService.FallbackIgnoresCategories` | ml_inference/predict_service.py:53-56 | On the fallback path the response does not depend on the Hostname and Process values. Two requests with the same Message whose categories are both unknown get the same response. |
| `PredictService.EncoderFailureStops` | ml_inference/predict_service.py:58-64 | A ValueError without "unknown categories", or any other encoder exception, gives 500 with "Categorical encoding failed: " followed by the exception text. Only the encoder was called. |
| `PredictService.VectorizerFailureStops` | ml_inference/predict_service.py:66-70 | A vectorizer failure gives 500 with "Message vectorization failed: " followed by the exception text. The classifier is not called. |
| `PredictService.RowCountCheck` | ml_inference/predict_service.py:74-78 | If the two blocks' row counts differ, the result is 500 with exactly "Internal shape mismatch during feature combination", and the classifier is not called. If they match, the classifier is called on the two blocks joined. |
| `PredictService.CombinedFeatures` | ml_inference/predict_service.py:72-82 | The classifier's input is the categorical block (encoded, or the zero block) followed by the message block, both from this request. The two blocks have equal row counts. The width is the sum of the two widths. |
| `PredictService.PredictionOutcome` | ml_inference/predict_service.py:81-89 | The classifier is called only after encoding, vectorizing and combining all succeed. A 200 carries the first predicted label. A classifier exception or an empty label array gives 500 "Prediction failed: ". Without the classifier call there is no prediction error. |
| `PredictService.FailureOfErrorText` | ml_inference/predict_service.py:35-94 | Reading the `error` text back gives the stage that failed. |
| `PredictService.ErrorTextsDistinguishStages` | ml_inference/predict_service.py:35-94 | Failures of two different stages never produce the same error text. |
| `PredictService.ServeAllIsPointwise` | ml_inference/predict_service.py:28-94 | Over a sequence of requests served with the same artifacts, the i-th response is the handler's response to the i-th body alone. This holds because the handler reads nothing but the artifacts and the body. |
| `PredictService.RepeatedRequestSameResponse` | ml_inference/predict_service.py:28-94 | The same body sent twice, with anything in between, gets the same response. |
| `SimulateLogs.LineRoundTrip` | simulator/simulate_logs.py:53 | Each line ends in one newline. When the row has at least one field and no field holds a comma, cutting the text before the newline at the commas gives back the row. |
| `SimulateLogs.CommaInFieldNotRecovered` | simulator/simulate_logs.py:52-53 | A field that holds a comma is not recovered: `["a", "b,c"]` is sent as `a,b,c` and reads back as three fields. |
| `SimulateLogs.BlankRowLine` | simulator/simulate_logs.py:53 | A blank CSV line (no fields) and a row with one empty field are both sent as a single newline. |
| `SimulateLogs.ConnectFromMeaning` | simulator/simulate_logs.py:19-34 | Entered with r failed attempts and r < max, the loop makes between r+1 and max attempts. It connects exactly when one of the remaining attempts can succeed, and then it is the first such attempt. It sleeps once per attempt but the last. |
| `SimulateLogs.ConnectPolicyMeaning` | simulator/simulate_logs.py:17-34 | With `max_retries <= 0` no attempt is made and the result is None. Otherwise at most `max_retries` attempts are made. Success on attempt k means exactly k-1 sleeps. Total failure means exactly `max_retries` attempts and `max_retries`-1 sleeps. |
| `SimulateLogs.ConnectToLogstash` | simulator/simulate_logs.py:17-34 | The retry loop computes `ConnectPolicy`. It returns a socket from the first successful attempt, after one sleep per failed attempt. Every earlier attempt failed. It gives up after `max_retries` attempts and `max_retries`-1 sleeps. |
| `SimulateLogs.DeliveredIndices` | simulator/simulate_logs.py:50-58 | Every listed row lies in the given range of data rows, and its send succeeded. The rows are in increasing order, so each appears at most once. |
| `SimulateLogs.DeliveredIndicesComplete` | simulator/simulate_logs.py:50-58 | Every row in the range whose send succeeded is listed. |
| `SimulateLogs.LinesAtIndex` | simulator/simulate_logs.py:53-54 | The k-th line sent for a list of rows is the line of the k-th row listed. |
| `SimulateLogs.SendFromStops` | simulator/simulate_logs.py:59-68 | The row loop either reaches the end of the file or stops at a row whose send raised a socket error. In the second case, the reconnect after that row used all `MaxRetries` attempts and every one failed. If the loop reaches the end of the file after reconnecting at least once, the last connection attempt succeeded. |
| `SimulateLogs.ReconnectFailureBreaks` | simulator/simulate_logs.py:59-65 | A socket error on row i followed by a failed reconnect ends the loop at row i, with nothing more sent or counted. |
| `SimulateLogs.ReconnectResumes` | simulator/simulate_logs.py:59-68 | A socket error on row i followed by a successful reconnect drops row i and continues with row i+1 on the new socket. |
| `SimulateLogs.SendFromDelivers` | simulator/simulate_logs.py:50-73 | From row i, the loop adds to the wire the lines of the rows whose send succeeded, up to where it stops. Each is counted once in `line_count` and once in the pacing sleeps. Rows that fail with any other exception are skipped. |
| `SimulateLogs.ReplayMeaning` | simulator/simulate_logs.py:36-83 | The run exits without connecting exactly when the first 10 attempts all fail. It then sends nothing, after 10 attempts and 9 sleeps. `line_count` equals the number of lines on the wire. The wire holds the lines of the successfully sent data rows, in file order, up to the end of the file (end "Finished", total reported) or up to the row where the reconnect failed (end "Aborted", no later row sent, no report). A run that ends "Finished" and reports its total ends on a live socket: its last connection attempt succeeded. |
| `SimulateLogs.HeaderNeverSent` | simulator/simulate_logs.py:46 | The first CSV row is never transmitted: replacing it changes nothing about the run. |
| `SimulateLogs.DroppedRowScenario` | simulator/simulate_logs.py:59-68 | In this example the send of data row 2 of 3 raises a socket error and the reconnect succeeds on its second attempt. Row 2 is not resent. The wire holds rows 1 and 3, and two lines are counted. |
| `SimulateLogs.SendLogs` | simulator/simulate_logs.py:36-83 | The send loop computes `ReplaySpec`. `line_count` equals the number of lines sent. A run that never connects sends nothing. |

## Left out

- Flask routing, `request.get_json`, `jsonify` and `app.run`. The handler starts from the parsed body as a JSON value, with a missing body as `JNull`. A response is a datatype: status, and the anomaly label or the error stage and text.
- Loading the artifacts with `joblib.load` and the `exit(1)` paths. The artifacts are given. C is the sum of the two category-list sizes they carry.
- The inner workings of pandas, numpy and scikit-learn. The transforms and `model.predict` are opaque function values. Only shapes, widths and the inputs behind each block are modelled; feature values (floats) are not. Building the one-row DataFrame and `np.hstack` are assumed not to raise, and `int()` of a label is taken as an integer label.
- `PredictService.HandlePredict`: the text of a TypeError raised inside the handler (on a non-object body) is not modelled. Neither is the text of the IndexError raised on an empty prediction. Those responses carry only their prefix. Exception text from the artifacts is carried as given.
- All `print` and `traceback` logging, including the progress message every 100 lines.
- Real sockets: `socket.create_connection`, timeouts, partial writes in `sendall`, `sock.close`. They are replaced by the `Network` outcomes. A send either delivers the whole line or raises.
- Sleep durations and the 15-second start-up wait. Retry sleeps and pacing sleeps are counted, not timed.
- CSV parsing and quoting by `csv.reader`, opening the file, and the missing-file path. The rows are a given sequence of string sequences. An empty file is modelled: reading its header raises StopIteration, the generic handler catches it, and the run ends with a reported total of 0. An error raised by the CSV reader in the middle of the file is not modelled.
- Host, port and file path configuration. These values only reach the I/O that is left out. `send_logs` uses the default `max_retries` of 10, as the code does.
