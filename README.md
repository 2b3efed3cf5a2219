# Recommendation service — a Dafny model

This project models the serving logic of a small recommendation service
(`recommendation_service.py`). The service has three endpoints:

- **offline**: a lookup in a precomputed table of per-user ranked item lists.
  Users without an entry get a default list. Two counters record which kind of
  hit served each request.
- **online**: fetch the user's recent events from an Events Store. Ask a
  Features Store for items similar to each event. Rank all candidates by score,
  drop repeated items and keep the first `k`.
- **blended**: alternate online and offline items (online first), append the
  rest of the longer list, drop repeated items and keep the first `k`.

Modules, one per component:

- `Slices` (`slices.dfy`): Python's `s[:k]` for every int `k`, and the result
  shapes (`Result` for `{"recs"}` / `{"error"}` payloads, `Outcome` for
  "returned a list" / "an exception escaped").
- `FirstOccurrence` (`dedup.dfy`): `dedup_ids`. It is a pure function `Dedup`,
  plus the `seen`-set loop `DedupIds` proved equal to it.
- `OnlineRanking` (`online.dfy`): `zip`, the stable descending sort, the
  fan-out loop over recent events, and the online endpoint.
- `Blending` (`blend.dfy`): the interleave, dedup and truncation of the
  blended endpoint.
- `OfflineStore` (`offline_store.dfy`): the class `Recommendations` with its
  table, default list and the two counters that `Get` updates in place.
- `Endpoints` (`endpoints.dfy`): the blended endpoint, run against a store and
  the two external stores.

External collaborators are parameters:

- The Events Store answer is an `EventsResponse` value.
- The Features Store is a function `(item_id, k) -> SimilarResponse`.
- Each says "failed" (network error, non-2xx status, undecodable body) or gives
  the lists. A missing JSON key reads as the empty list, as with `dict.get(…, [])`.

Scores are integers.

Where the code and the service's design description disagree, the model
follows the code:

- `get` with a loaded personal table, an unknown user and no default list does
  not return `[]`. The `TypeError` raised inside the `except KeyError:` handler
  is not caught by the following bare `except:`, so it escapes (`Raised`).
- The blended endpoint does not fall back to the offline list when the online
  path reports an error. `recs_online["recs"]` on an `{"error": …}` payload
  raises `KeyError`, so the request fails (`Endpoints.Combined`,
  `CombinedFailsWithOnline`).
- `get` does not remove repeated items from a stored list. Only the online and
  blended endpoints deduplicate.
- `k` is not checked. A negative `k` follows Python slicing and drops the last
  `-k` items (`Slices.Take`).

## Model

| member | source | states |
|---|---|---|
| `Slices.Take` | recommendation_service.py:38 | `s[:k]` is a prefix of `s`; its length is `min(k, len)` for `k >= 0` and `max(0, len + k)` for negative `k` |
| `FirstOccurrence.Dedup` | recommendation_service.py:96-102 | dedup never lengthens the list, and keeps exactly the elements of the input |
| `FirstOccurrence.DedupDistinct` | recommendation_service.py:96-102 | the deduplicated list has no repeated element |
| `FirstOccurrence.DedupSubsequence` | recommendation_service.py:96-102 | the deduplicated list is obtained from the input by deleting elements (order kept) |
| `FirstOccurrence.DedupFirstOccurrenceOrder` | recommendation_service.py:96-102 | kept elements appear in the order of their first occurrences in the input |
| `FirstOccurrence.DedupOfDistinct` | recommendation_service.py:96-102 | a list without repeats is returned unchanged |
| `FirstOccurrence.DedupIdempotent` | recommendation_service.py:96-102 | deduplicating twice equals deduplicating once |
| `FirstOccurrence.DedupHead` | recommendation_service.py:96-102 | the first element of a non-empty list is always kept, in front |
| `FirstOccurrence.DedupUnique` | recommendation_service.py:96-102 | any duplicate-free list of the input's elements in first-occurrence order is the dedup result |
| `FirstOccurrence.DedupCharacterized` | recommendation_service.py:96-102 | `r` is the dedup of `s` if and only if it is a duplicate-free listing of the elements of `s` in first-occurrence order |
| `FirstOccurrence.DedupIds` | recommendation_service.py:100-102 | the comprehension with its `seen` set computes `Dedup` |
| `OnlineRanking.Zip` | recommendation_service.py:139 | `zip` pairs `items[i]` with `scores[i]` up to the shorter length |
| `OnlineRanking.SortByScoreDescCorrect` | recommendation_service.py:140 | `sorted(…, key=score, reverse=True)`: non-increasing scores, a permutation of the input, candidates of equal score in input order |
| `OnlineRanking.SortedItems` | recommendation_service.py:139-140 | zipping and sorting keep exactly the items `zip` paired with a score |
| `OnlineRanking.RankProperties` | recommendation_service.py:139-147 | the ranked list repeats no item, has at most `k` items, holds only items that `zip` paired with a score, and holds all of them when `k` covers every candidate |
| `OnlineRanking.RankOrder` | recommendation_service.py:139-144 | an item ranked before another has a candidate scoring at least as high as every candidate of the other |
| `OnlineRanking.GatherCorrect` | recommendation_service.py:123-136 | the fan-out succeeds exactly when every similarity request succeeds and then holds all answers concatenated in event order; otherwise it names the first event whose request failed |
| `OnlineRanking.GatherFailureSticks` | recommendation_service.py:135-136 | once a request has failed, later events do not change the outcome |
| `OnlineRanking.OnlineProperties` | recommendation_service.py:113-149 | Events Store failure gives the events error; no events gives `[]`; a failed similarity request gives an error naming the first failing event and no recommendations, and any failing event causes it; a success is duplicate-free, at most `k` long and drawn from the similarity answers |
| `OnlineRanking.RecommendationsOnline` | recommendation_service.py:104-149 | the loop computes the online response; no similarity request is sent when the events call fails; on success every event was queried in order; on error the queried events are a prefix of the events, and the last one queried is the one named in the error |
| `Blending.InterleaveAt` | recommendation_service.py:167-169 | the alternation puts `online[i]` at `2i` and `offline[i]` at `2i+1` |
| `Blending.InterleavePermutes` | recommendation_service.py:167-169 | the alternation holds exactly the items of both prefixes |
| `Blending.BlendOrderPositions` | recommendation_service.py:163-173 | before dedup: length `len(offline) + len(online)`, alternation online-first for `m = min(len)` steps, then `offline[m:]`, then `online[m:]` |
| `Blending.BlendOrderPermutes` | recommendation_service.py:163-173 | before dedup the list is a permutation of `offline + online` |
| `Blending.BlendProperties` | recommendation_service.py:175-179 | the blended list repeats no item, has at most `k` items, holds only items of the two inputs, holds all of them when `k` covers both, and starts with the first online item when both lists and `k` are non-empty |
| `Blending.BlendLongerOfflineExample` | recommendation_service.py:163-179 | offline `[1,2,3]`, online `[7,8]` blend to `[7,1,8,2,3]` |
| `Blending.BlendOverlapExample` | recommendation_service.py:163-179 | offline `[1,2]`, online `[2,1]` interleave to `[2,1,1,2]` and blend to `[2,1]` |
| `Blending.BlendLists` | recommendation_service.py:163-179 | the append/extend loop followed by dedup and truncation computes `Blend` |
| `OfflineStore.LookupBounded` | recommendation_service.py:32-48 | whatever `get` returns is at most `k` long and is a prefix of the personal list when the user has one, otherwise of the default list |
| `OfflineStore.Recommendations.constructor` | recommendation_service.py:13-19 | a fresh store has neither table loaded and both counters at zero |
| `OfflineStore.Recommendations.LoadPersonal` | recommendation_service.py:27-29 | loading the personal table installs it and touches nothing else |
| `OfflineStore.Recommendations.LoadDefault` | recommendation_service.py:27 | loading the default list installs it and touches nothing else |
| `OfflineStore.Recommendations.Get` | recommendation_service.py:32-48 | personal hit: prefix of the user's list, personal counter +1, default counter unchanged; unknown user: prefix of the default list, default counter +1, personal counter unchanged; table not loaded: `[]`, no counter changes; unknown user without a default list: the error escapes, no counter changes; table and default list never change |
| `Endpoints.CombinedFailsWithOnline` | recommendation_service.py:157-161 | the blended request succeeds exactly when the offline lookup and the online path both succeed; an Events Store failure fails it |
| `Endpoints.Recommend` | recommendation_service.py:151-181 | the endpoint's response is `Combined` of the lookup and the online response; a successful response is duplicate-free and at most `k` long; at most one hit is counted |

## Left out

- `Recommendations.load` reads parquet files with pandas. `LoadPersonal` and `LoadDefault` take the parsed table and list as arguments. The `rank` column and any ordering done at load time are not modelled.
- The pandas quirk where a user with a single row yields a Series is not modelled. In the source, `.to_list` then fails and `get` returns `[]` without counting a hit. The table maps every user to a list.
- `lifespan`, `Recommendations.stats` and all logging only log or wire up startup and shutdown. They have no state to verify.
- HTTP calls (`requests.post`, headers, `raise_for_status`, JSON decoding) and the events request's `k=3` are replaced by the two store parameters. Responses of unexpected JSON shape are not modelled.
- FastAPI routing, `async`/`await`, the uvicorn `__main__` block and concurrent requests are not modelled. In particular, counter updates are not modelled as atomic.
- Float scores are modelled as integers. NaN and float comparison quirks are not captured.
- Python's `sorted` (Timsort) is modelled by its specified result: a stable descending insertion sort.
- start_2.py and the test scripts are ad-hoc clients with no logic of their own.
- Endpoints.Recommend: states the counter change only as "at most one more hit". The exact change per branch is the contract of `Recommendations.Get`, which it calls.
