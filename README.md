# kNNBandit core in Dafny

kNNBandit simulates interactive recommendation. Some strategy proposes an item to a user. The user's ground-truth rating is revealed as feedback. The strategy and a set of cumulative metrics are updated, and the pair is never proposed again. This project models the bookkeeping of that simulator and of the sorted-adjacency utilities it ships with, and proves what each operation promises.

The modules follow the Java packages:

- `Preferences` is the sparse preference store (`SimpleFastUpdateablePreferenceData`). It holds two mirrored jagged lists of index-sorted `(idx, value)` entries. It supports binary-search insert, overwrite and delete, the preference counter, and the loader.
- `Recommender` is the base interactive recommender. It covers per-user availability lists that only shrink, the feedback for single and batch updates, and the people-to-people (not reciprocal) mode.
- `Loop` is the recommendation loop: a shrinking pool of users, the do-while draw of `nextIteration`, the replay `update`, and `hasEnded`.
- `Metrics` holds cumulative recall and cumulative Gini. For Gini, the rank maps of the frequency runs and the O(1) update of the numerator Σ(2j − N − 1)·x₍ⱼ₎ are related to the frequencies sorted in ascending order.
- `Argmax`, `Basic`, `Bandits`, `MatrixFactorization` and `Knn` are the strategies:
  - the argmax with tie lists;
  - the average, popularity and random recommenders;
  - the epsilon-greedy, epsilon-t-greedy, UCB1 and Thompson-sampling item bandits with their update functions;
  - matrix factorisation with its refit counter;
  - user-based kNN with its top-k neighbour heap and item scores.
- `Similarities` covers vector cosine and Beta stochastic similarity: pairwise updates, closed forms and the bulk recompute. `Distributions` covers the Beta and Gamma parameter bookkeeping.
- `SortedLists`, `RelationLists` and `Combiner` are the sorted-list utilities, `Combiner` being `OrderedListCombiner`. `UnweightedRelations` and `WeightedRelations` hold the `Fast*Relation` classes. `Indexes` holds `FastIndex` and `GenericIndex`. `Edges`, `DirectedEdges`, `UndirectedEdges` and `Neighbours` cover the fast edge classes.

Modelling conventions:

- Java `double` is `real`. Where NaN and the infinities matter (argmax scores, Gini's `compute`, `getParameter`, `getEdgeWeight`, factorisation scores), it is the `Double` datatype with Java's comparison rules.
- Every random draw is a nondeterministic choice constrained to its range. This covers the tie breaks, the loop's user pick, the kNN shuffle and the bandits' coins.
- `sqrt`, `log`, the Beta and Gamma samplers and the factoriser are function parameters.
- `Collections.binarySearch` and `List.sort` are functions with Java's encodings: the negative insertion point, and a stable sort.
- Objects whose fields the source updates in place are classes. Their operations are methods whose `ensures` state the whole new state.
- A Java exception on invalid input becomes a precondition.

## Model

| member | source | states |
|---|---|---|
| Common.MeanAppend | src/main/java/es/uam/eps/ir/knnbandit/recommendation/basic/AvgRecommender.java:63-71 | the running-mean step (first rating replaces the value, later ones move it by (v - mean)/(n + 1)) lands exactly on the mean of all ratings so far |
| Argmax.MaxOf | src/main/java/es/uam/eps/ir/knnbandit/recommendation/basic/AbstractBasicInteractiveRecommender.java:70-85 | the scan's maximum is never NaN, no score is greater than it, and it is -Infinity or one of the scores |
| Argmax.Ties | src/main/java/es/uam/eps/ir/knnbandit/recommendation/basic/AbstractBasicInteractiveRecommender.java:70-85 | the tie list holds exactly the candidates whose score equals the given value (NaN equals nothing) |
| Argmax.TopTies | src/main/java/es/uam/eps/ir/knnbandit/recommendation/basic/AbstractBasicInteractiveRecommender.java:70-85 | the scan loop (reset the list on `>`, append on `==`) ends with the maximum and the candidates tied at it, in scan order |
| Argmax.TiesAreMaximal | src/main/java/es/uam/eps/ir/knnbandit/recommendation/basic/AbstractBasicInteractiveRecommender.java:70-85 | a candidate scoring the maximum is in the tie list and no score exceeds it |
| Argmax.TiesNonEmpty | src/main/java/es/uam/eps/ir/knnbandit/recommendation/basic/AbstractBasicInteractiveRecommender.java:70-85 | once some score is a number, the tie list is not empty |
| Argmax.UniqueMax | src/main/java/es/uam/eps/ir/knnbandit/recommendation/basic/AbstractBasicInteractiveRecommender.java:87-92 | a unique strict maximiser is the only tie, so it is returned without a random draw |
| Argmax.PickTie | src/main/java/es/uam/eps/ir/knnbandit/recommendation/basic/AbstractBasicInteractiveRecommender.java:86-96 | the draw returns a tied candidate, and the sole one when there is one |
| Argmax.PickAny | src/main/java/es/uam/eps/ir/knnbandit/recommendation/bandits/item/EpsilonGreedyItemBandit.java:136-140 | the exploration draw returns an element of the available list |
| Argmax.BestOf | src/main/java/es/uam/eps/ir/knnbandit/recommendation/bandits/item/EpsilonGreedyItemBandit.java:142-172 | the exploit step returns a tie at the maximum, which no score exceeds, and the unique maximiser when there is one |
| Bandits.Apply | src/main/java/es/uam/eps/ir/knnbandit/recommendation/bandits/item/EpsilonGreedyUpdateFunctions.java:24-59 | the update rules: the non-stationary rule with alpha 0 keeps the value and with alpha 1 gives the reward; every rule but the shared one keeps a finite value finite |
| Bandits.ArmValue | src/main/java/es/uam/eps/ir/knnbandit/recommendation/bandits/item/EpsilonGreedyUpdateFunctions.java:24-59 | an arm folded from 0 over its rewards by a per-arm rule stays a finite number |
| Bandits.StationaryMean | src/main/java/es/uam/eps/ir/knnbandit/recommendation/bandits/item/EpsilonGreedyUpdateFunctions.java:24-31 | folding the stationary rule over rewards r1..rn with counts 1..n gives their mean |
| Bandits.CountSum | src/main/java/es/uam/eps/ir/knnbandit/recommendation/bandits/item/EpsilonGreedyUpdateFunctions.java:56-59 | folding the count rule gives the sum of the rewards |
| Bandits.UseAllFirstZero | src/main/java/es/uam/eps/ir/knnbandit/recommendation/bandits/item/EpsilonGreedyUpdateFunctions.java:47-50 | from the initial state a first reward of 0 makes the shared-value rule compute 0/0, NaN |
| Bandits.ArmsInit | src/main/java/es/uam/eps/ir/knnbandit/recommendation/bandits/item/EpsilonGreedyItemBandit.java:61-70 | the initial zeros satisfy the bookkeeping invariant (values are the rules applied to no rewards, the sum of values is 0) |
| Bandits.ArmsStep | src/main/java/es/uam/eps/ir/knnbandit/recommendation/bandits/item/EpsilonGreedyItemBandit.java:178-189 | one update keeps the invariant: one more pull of the arm, its value the rule applied to its rewards, sumValues the sum of the values |
| Bandits.ArmScores | src/main/java/es/uam/eps/ir/knnbandit/recommendation/bandits/item/EpsilonGreedyItemBandit.java:146-149 | each available arm is scored by valF on its value and pull count |
| Bandits.PullArm | src/main/java/es/uam/eps/ir/knnbandit/recommendation/bandits/item/EpsilonGreedyItemBandit.java:178-189 | the arrays change only at the pulled arm: count + 1, value moved by the rule; the new sum adds the value's change |
| Bandits.EpsilonGreedyItemBandit.constructor | src/main/java/es/uam/eps/ir/knnbandit/recommendation/bandits/item/EpsilonGreedyItemBandit.java:61-70 | every arm starts at value 0, no pulls, sum 0 |
| Bandits.EpsilonGreedyItemBandit.Next | src/main/java/es/uam/eps/ir/knnbandit/recommendation/bandits/item/EpsilonGreedyItemBandit.java:125-175 | -1 exactly for no arm; otherwise an available arm; the sole arm of a singleton; a maximiser of the scores on the exploit branch |
| Bandits.EpsilonGreedyItemBandit.Update | src/main/java/es/uam/eps/ir/knnbandit/recommendation/bandits/item/EpsilonGreedyItemBandit.java:178-189 | only arm i changes (one more pull, value by the rule), the reward is recorded, the invariant is kept |
| Bandits.EpsilonSchedule | src/main/java/es/uam/eps/ir/knnbandit/recommendation/bandits/item/EpsilonTGreedyItemBandit.java:141 | min(1, alpha * numItems / numIter) is at most 1, and not negative for a non-negative alpha |
| Bandits.EpsilonDecreasing | src/main/java/es/uam/eps/ir/knnbandit/recommendation/bandits/item/EpsilonTGreedyItemBandit.java:141 | more iterations never raise epsilon |
| Bandits.EpsilonTGreedyItemBandit.constructor | src/main/java/es/uam/eps/ir/knnbandit/recommendation/bandits/item/EpsilonTGreedyItemBandit.java:65-75 | numIter starts at 1 and every arm at 0 |
| Bandits.EpsilonTGreedyItemBandit.Epsilon | src/main/java/es/uam/eps/ir/knnbandit/recommendation/bandits/item/EpsilonTGreedyItemBandit.java:141 | the current epsilon is at most 1 (and not negative for a non-negative alpha) |
| Bandits.EpsilonTGreedyItemBandit.Next | src/main/java/es/uam/eps/ir/knnbandit/recommendation/bandits/item/EpsilonTGreedyItemBandit.java:131-181 | as epsilon-greedy, with the exploration test against the current epsilon |
| Bandits.EpsilonTGreedyItemBandit.Update | src/main/java/es/uam/eps/ir/knnbandit/recommendation/bandits/item/EpsilonTGreedyItemBandit.java:184-196 | numIter rises by 1, epsilon does not rise, and the arm bookkeeping is as epsilon-greedy's |
| Bandits.UcbScores | src/main/java/es/uam/eps/ir/knnbandit/recommendation/bandits/item/UCB1ItemBandit.java:113-122 | an untried arm scores +Infinity, a tried one valF of its mean plus the bonus |
| Bandits.MeanArmsStep | src/main/java/es/uam/eps/ir/knnbandit/recommendation/bandits/item/UCB1ItemBandit.java:147-152 | the incremental step values + (v - values)/n keeps each arm at the mean of its rewards and numIter at the total pulls |
| Bandits.MaximiserInfinite | src/main/java/es/uam/eps/ir/knnbandit/recommendation/bandits/item/UCB1ItemBandit.java:113-133 | when some score is +Infinity the chosen arm scores +Infinity |
| Bandits.UntriedFirst | src/main/java/es/uam/eps/ir/knnbandit/recommendation/bandits/item/UCB1ItemBandit.java:113-133 | while some available arm is untried, a maximiser of the UCB scores is an untried arm (score +Infinity) |
| Bandits.UCB1ItemBandit.constructor | src/main/java/es/uam/eps/ir/knnbandit/recommendation/bandits/item/UCB1ItemBandit.java:46-51 | no pulls and numIter 0 |
| Bandits.UCB1ItemBandit.Next | src/main/java/es/uam/eps/ir/knnbandit/recommendation/bandits/item/UCB1ItemBandit.java:100-144 | -1 exactly for no arm; an available arm; the sole arm of a singleton; a maximiser of the UCB scores, hence an untried arm whenever one is available |
| Bandits.UCB1ItemBandit.Update | src/main/java/es/uam/eps/ir/knnbandit/recommendation/bandits/item/UCB1ItemBandit.java:147-152 | one more pull and iteration; the arm's value becomes the mean of its rewards, the others stay |
| Bandits.ThompsonSamplingItemBandit.constructor | src/main/java/es/uam/eps/ir/knnbandit/recommendation/bandits/item/ThompsonSamplingItemBandit.java:58-62 | one Beta distribution per arm with the given initial parameters |
| Bandits.ThompsonSamplingItemBandit.Next | src/main/java/es/uam/eps/ir/knnbandit/recommendation/bandits/item/ThompsonSamplingItemBandit.java:97-126 | -1 exactly for no arm; an available arm; the sole arm of a singleton; a maximiser of the sampled scores |
| Bandits.ThompsonSamplingItemBandit.Update | src/main/java/es/uam/eps/ir/knnbandit/recommendation/bandits/item/ThompsonSamplingItemBandit.java:129-132 | arm i's alpha + beta grows by exactly 1 (value successes, 1 - value failures); other arms unchanged |
| Bandits.SampleScores | src/main/java/es/uam/eps/ir/knnbandit/recommendation/bandits/item/ThompsonSamplingItemBandit.java:109 | each available arm is scored by valF on its sample with count 0 |
| Bandits.Pick | src/main/java/es/uam/eps/ir/knnbandit/recommendation/bandits/ItemBanditRecommender.java:70-74 | whichever bandit: -1 exactly for no candidate, otherwise a candidate, the sole one of a singleton; and (Chooses) the kind's own choice: a maximiser of the arm scores on the epsilon-greedy and epsilon_t-greedy exploit branches, of the UCB scores (an untried arm while one is available) for UCB1, of the sampled scores for Thompson sampling |
| Bandits.Pull | src/main/java/es/uam/eps/ir/knnbandit/recommendation/bandits/ItemBanditRecommender.java:77-80 | whichever bandit: the reward is appended to exactly that arm's rewards |
| Bandits.ItemBanditRecommender.constructor | src/main/java/es/uam/eps/ir/knnbandit/recommendation/bandits/ItemBanditRecommender.java:46-51 | one bandit with one arm per item, shared by all users |
| Bandits.ItemBanditRecommender.Next | src/main/java/es/uam/eps/ir/knnbandit/recommendation/bandits/ItemBanditRecommender.java:70-74 | the bandit picks among exactly the user's available items: -1 iff none, the sole item of a singleton, and otherwise the choice Chooses states for the bandit's kind (its exploit, UCB or Thompson maximiser) |
| Bandits.ItemBanditRecommender.Record | src/main/java/es/uam/eps/ir/knnbandit/recommendation/bandits/ItemBanditRecommender.java:77-80 | the rating rewards arm i whatever the user |
| Bandits.ItemBanditRecommender.RecordAll | src/main/java/es/uam/eps/ir/knnbandit/recommendation/InteractiveRecommender.java:253-256 | the default batch updateMethod rewards each rating's arm in order |
| Bandits.ItemBanditRecommender.Update | src/main/java/es/uam/eps/ir/knnbandit/recommendation/InteractiveRecommender.java:169-196 | the base update (availability, training data) and then the bandit rewards every rating the update passes on |
| Bandits.ItemBanditRecommender.UpdateBatch | src/main/java/es/uam/eps/ir/knnbandit/recommendation/InteractiveRecommender.java:210-246 | the batch update of the lists and the training data, then every collected rating rewards its arm |
| Basic.ColumnValues | src/main/java/es/uam/eps/ir/knnbandit/recommendation/basic/AvgRecommender.java:76-81 | every value collected for item i is some user's ground-truth rating of i |
| Basic.TruthColumns | src/main/java/es/uam/eps/ir/knnbandit/recommendation/basic/AvgRecommender.java:76-81 | one list of ground-truth ratings per item |
| Basic.Observe | src/main/java/es/uam/eps/ir/knnbandit/recommendation/basic/AvgRecommender.java:63-71 | observing ratings keeps one list per item |
| Basic.ObserveCounts | src/main/java/es/uam/eps/ir/knnbandit/recommendation/basic/AvgRecommender.java:63-71 | item i's list grows by exactly the number of ratings about i |
| Basic.ItemCalls | src/main/java/es/uam/eps/ir/knnbandit/recommendation/basic/AvgRecommender.java:63-71 | the ratings about item i, and only those |
| Basic.Positives | src/main/java/es/uam/eps/ir/knnbandit/recommendation/basic/PopularityRecommender.java:68-72 | the count of positive ratings is 0 exactly when no rating is positive |
| Basic.Scores | src/main/java/es/uam/eps/ir/knnbandit/recommendation/basic/AbstractBasicInteractiveRecommender.java:73-76 | each available item is scored by its value |
| Basic.SelectBest | src/main/java/es/uam/eps/ir/knnbandit/recommendation/basic/AbstractBasicInteractiveRecommender.java:64-100 | -1 exactly for an empty list; otherwise an available item of maximum value, and the unique maximiser when there is one |
| Basic.BestScore | src/main/java/es/uam/eps/ir/knnbandit/recommendation/basic/AbstractBasicInteractiveRecommender.java:70-98 | a tied item is available and no available item has a greater value |
| Basic.UniqueScore | src/main/java/es/uam/eps/ir/knnbandit/recommendation/basic/AbstractBasicInteractiveRecommender.java:87-92 | a strict unique maximiser is the only tie |
| Basic.AvgRecommender.constructor | src/main/java/es/uam/eps/ir/knnbandit/recommendation/basic/AvgRecommender.java:40-45 | every value 0 with no rating seen |
| Basic.AvgRecommender.Next | src/main/java/es/uam/eps/ir/knnbandit/recommendation/basic/AbstractBasicInteractiveRecommender.java:64-100 | -1 iff the user has nothing available; otherwise an available item of highest mean, and the strict unique maximiser when there is one |
| Basic.AvgRecommender.Record | src/main/java/es/uam/eps/ir/knnbandit/recommendation/basic/AvgRecommender.java:63-71 | the rating joins item i's ratings and values[i] stays their mean (only item i changes) |
| Basic.AvgRecommender.RecordAll | src/main/java/es/uam/eps/ir/knnbandit/recommendation/InteractiveRecommender.java:169-194 | the updateMethod(u, i, v) calls update makes (the pair, and the reverse of an accepted link): every rating joins its own item's mean, in order |
| Basic.AvgRecommender.Update | src/main/java/es/uam/eps/ir/knnbandit/recommendation/InteractiveRecommender.java:169-196 | the base update, then each rating it passes on joins its item's mean |
| Basic.AvgRecommender.UpdateBatch | src/main/java/es/uam/eps/ir/knnbandit/recommendation/basic/AvgRecommender.java:74-82 | after the base batch update every item's value is the mean of all its ground-truth ratings, not of the training ratings |
| Basic.AvgRecommender.FromTruth | src/main/java/es/uam/eps/ir/knnbandit/recommendation/basic/AvgRecommender.java:76-81 | the loop over the ground truth sets every item to the mean of its ground-truth ratings |
| Basic.PopularityRecommender.constructor | src/main/java/es/uam/eps/ir/knnbandit/recommendation/basic/PopularityRecommender.java:40-44 | every value 0 |
| Basic.PopularityRecommender.Next | src/main/java/es/uam/eps/ir/knnbandit/recommendation/basic/AbstractBasicInteractiveRecommender.java:64-100 | -1 iff the user has nothing available; otherwise an available item of highest popularity, and the strict unique maximiser when there is one |
| Basic.PopularityRecommender.Record | src/main/java/es/uam/eps/ir/knnbandit/recommendation/basic/PopularityRecommender.java:62-65 | values[i] rises by 1 iff v >= threshold; no other item changes |
| Basic.PopularityRecommender.RecordAll | src/main/java/es/uam/eps/ir/knnbandit/recommendation/InteractiveRecommender.java:169-194 | the updateMethod(u, i, v) calls update makes (the pair, and the reverse of an accepted link): every relevant rating counts once for its item (RelevantCounts) |
| Basic.PopularityRecommender.Update | src/main/java/es/uam/eps/ir/knnbandit/recommendation/InteractiveRecommender.java:169-196 | the base update, then every relevant rating it passes on counts for its item |
| Basic.PopularityRecommender.UpdateBatch | src/main/java/es/uam/eps/ir/knnbandit/recommendation/basic/PopularityRecommender.java:68-72 | after the base batch update each value is the number of training ratings above 0 (not the threshold) |
| Basic.PopularityRecommender.FromTraining | src/main/java/es/uam/eps/ir/knnbandit/recommendation/basic/PopularityRecommender.java:68-72 | the loop sets each item to the number of positive ratings in its training column |
| Basic.Relevant | src/main/java/es/uam/eps/ir/knnbandit/recommendation/basic/PopularityRecommender.java:62-65 | counting keeps one value per item |
| Basic.RelevantCounts | src/main/java/es/uam/eps/ir/knnbandit/recommendation/basic/PopularityRecommender.java:62-65 | after the ratings are counted one by one, each item's value is its old value plus the number of its ratings at or above the threshold |
| Basic.RandomRecommender.constructor | src/main/java/es/uam/eps/ir/knnbandit/recommendation/basic/RandomRecommender.java:42-45 | the recommender wraps the given base |
| Basic.RandomRecommender.Next | src/main/java/es/uam/eps/ir/knnbandit/recommendation/basic/RandomRecommender.java:61-69 | -1 iff the user has nothing available; otherwise an available item |
| Combiner.MergeLength | src/main/java/es/uam/eps/ir/knnbandit/utils/OrderedListCombiner.java:147-175 | the merge has as many elements as mergeListsSize counts |
| Combiner.IntersectLength | src/main/java/es/uam/eps/ir/knnbandit/utils/OrderedListCombiner.java:310-366 | both intersections have as many elements as intersectListsSize counts |
| Combiner.UnionPlusIntersection | src/main/java/es/uam/eps/ir/knnbandit/utils/OrderedListCombiner.java:548-580 | the union size plus the intersection size is the sum of the list lengths |
| Combiner.MergeSorted | src/main/java/es/uam/eps/ir/knnbandit/utils/OrderedListCombiner.java:71-111 | merging strictly increasing lists with a key-keeping combination gives a strictly increasing list holding exactly the keys of either list |
| Combiner.IntersectPairs | src/main/java/es/uam/eps/ir/knnbandit/utils/OrderedListCombiner.java:217-274 | the intersection holds exactly combine(x, y) for the pairs of elements, one per list, that share a key |
| Combiner.SharedKey | src/main/java/es/uam/eps/ir/knnbandit/utils/OrderedListCombiner.java:402-427 | the intersection is non-empty exactly when the lists share a key |
| Combiner.Polls | src/main/java/es/uam/eps/ir/knnbandit/utils/OrderedListCombiner.java:71-111 | the priority queue releases every element of both lists once |
| Combiner.StepFirst | src/main/java/es/uam/eps/ir/knnbandit/utils/OrderedListCombiner.java:71-111 | a head with the lower key comes out alone and is appended to the merge |
| Combiner.StepSecond | src/main/java/es/uam/eps/ir/knnbandit/utils/OrderedListCombiner.java:71-111 | the symmetric case for the second list |
| Combiner.StepBoth | src/main/java/es/uam/eps/ir/knnbandit/utils/OrderedListCombiner.java:71-111 | two heads with one key come out one after the other, the older first |
| Combiner.Scanned | src/main/java/es/uam/eps/ir/knnbandit/utils/OrderedListCombiner.java:469-512 | the loop state over the released elements: a last element implies a non-empty merge |
| Combiner.ScannedCounts | src/main/java/es/uam/eps/ir/knnbandit/utils/OrderedListCombiner.java:548-580 | the counters of the size variant equal the lengths of the lists the list variant builds |
| Combiner.ScanRest | src/main/java/es/uam/eps/ir/knnbandit/utils/OrderedListCombiner.java:469-512 | from a clean state, scanning the remaining polls appends exactly the merge and the intersections of what is left |
| Combiner.ScanAll | src/main/java/es/uam/eps/ir/knnbandit/utils/OrderedListCombiner.java:469-512 | scanning all polls yields the merge, the queue-order intersection, the intended intersection and both counts |
| Combiner.Poll | src/main/java/es/uam/eps/ir/knnbandit/utils/OrderedListCombiner.java:71-111 | one poll releases the next element of the queue order and shrinks what is left by one |
| Combiner.MergeLists | src/main/java/es/uam/eps/ir/knnbandit/utils/OrderedListCombiner.java:71-111 | mergeLists returns the key-ordered union, an element of both lists combined first-list first |
| Combiner.MergeListsSize | src/main/java/es/uam/eps/ir/knnbandit/utils/OrderedListCombiner.java:147-175 | mergeListsSize returns the number of distinct keys |
| Combiner.MergeAndIntersectLists | src/main/java/es/uam/eps/ir/knnbandit/utils/OrderedListCombiner.java:469-512 | as written: the merge is right, and the intersection combines each common pair in the order the queue released it |
| Combiner.CrossedDiffers | src/main/java/es/uam/eps/ir/knnbandit/utils/OrderedListCombiner.java:490-502 | keys [0, 1] and [1]: the written intersection holds combine(second's, first's), not combine(first's, second's) |
| Combiner.MergeAndIntersectListsIntended | src/main/java/es/uam/eps/ir/knnbandit/utils/OrderedListCombiner.java:469-512 | corrected: the merge, and the intersection combined first-list first |
| Combiner.MergeAndIntersectListsSize | src/main/java/es/uam/eps/ir/knnbandit/utils/OrderedListCombiner.java:548-580 | the union size and the intersection size |
| Combiner.IntersectLists | src/main/java/es/uam/eps/ir/knnbandit/utils/OrderedListCombiner.java:217-274 | intersectLists returns combine(first's, second's) for each shared key, in key order |
| Combiner.IntersectListsSize | src/main/java/es/uam/eps/ir/knnbandit/utils/OrderedListCombiner.java:310-366 | intersectListsSize returns the number of shared keys |
| Combiner.IntersectionHasElements | src/main/java/es/uam/eps/ir/knnbandit/utils/OrderedListCombiner.java:402-427 | intersectionHasElements is true exactly when the intersection is non-empty |
| Distributions.BetaDistribution.constructor | src/main/java/es/uam/eps/ir/knnbandit/stats/BetaDistribution.java:42-47 | the parameters are the given alpha and beta |
| Distributions.BetaDistribution.UpdateAll | src/main/java/es/uam/eps/ir/knnbandit/stats/BetaDistribution.java:50-56 | exactly two values set alpha and beta; any other number of values changes nothing |
| Distributions.BetaDistribution.SetBoth | src/main/java/es/uam/eps/ir/knnbandit/stats/BetaDistribution.java:63-67 | both parameters are set |
| Distributions.BetaDistribution.SetParameter | src/main/java/es/uam/eps/ir/knnbandit/stats/BetaDistribution.java:70-81 | index 0 sets alpha, index 1 sets beta, any other index changes nothing |
| Distributions.BetaDistribution.UpdateAdd | src/main/java/es/uam/eps/ir/knnbandit/stats/BetaDistribution.java:88-92 | both parameters grow by their increments |
| Distributions.BetaDistribution.UpdateAddAlpha | src/main/java/es/uam/eps/ir/knnbandit/stats/BetaDistribution.java:98-101 | alpha grows by the increment, beta stays |
| Distributions.BetaDistribution.UpdateAddBeta | src/main/java/es/uam/eps/ir/knnbandit/stats/BetaDistribution.java:107-110 | beta grows by the increment, alpha stays |
| Distributions.BetaDistribution.Mean | src/main/java/es/uam/eps/ir/knnbandit/stats/BetaDistribution.java:131-134 | alpha / (alpha + beta): a number in [0, 1] for non-negative parameters with a positive sum; NaN for 0/0 |
| Distributions.BetaDistribution.GetParameter | src/main/java/es/uam/eps/ir/knnbandit/stats/BetaDistribution.java:137-148 | alpha for 0, beta for 1, NaN for any other index |
| Distributions.GammaDistribution.constructor | src/main/java/es/uam/eps/ir/knnbandit/stats/GammaDistribution.java:39-44 | the parameters are the given shape and scale |
| Distributions.GammaDistribution.UpdateAll | src/main/java/es/uam/eps/ir/knnbandit/stats/GammaDistribution.java:47-53 | exactly two values set shape and scale; otherwise nothing changes |
| Distributions.GammaDistribution.SetBoth | src/main/java/es/uam/eps/ir/knnbandit/stats/GammaDistribution.java:60-64 | both parameters are set |
| Distributions.GammaDistribution.SetParameter | src/main/java/es/uam/eps/ir/knnbandit/stats/GammaDistribution.java:67-98 | as written: index 1 sets the scale, but the shape never changes, since updateShape assigns the field to itself |
| Distributions.GammaDistribution.SetParameterIntended | src/main/java/es/uam/eps/ir/knnbandit/stats/GammaDistribution.java:67-98 | corrected: index 0 sets the shape, index 1 the scale, any other index changes nothing |
| Distributions.GammaDistribution.Mean | src/main/java/es/uam/eps/ir/knnbandit/stats/GammaDistribution.java:101-103 | shape * scale: 0 if either is 0, positive if both are |
| Distributions.GammaDistribution.GetParameter | src/main/java/es/uam/eps/ir/knnbandit/stats/GammaDistribution.java:106-117 | shape for 0, scale for 1, NaN otherwise |
| Distributions.GammaDistribution.Sample | src/main/java/es/uam/eps/ir/knnbandit/stats/GammaDistribution.java:123-125 | a non-positive shape samples 0; otherwise the random procedure's outcome |
| DirectedEdges.DirectedUnweightedEdges.constructor | src/main/java/es/uam/eps/ir/knnbandit/graph/edges/fast/FastDirectedUnweightedEdges.java:41-44 | no nodes, no edges, count 0 |
| DirectedEdges.DirectedUnweightedEdges.IncidentNodes | src/main/java/es/uam/eps/ir/knnbandit/graph/edges/fast/FastDirectedUnweightedEdges.java:47-50 | strictly increasing, and x is listed exactly when there is an edge from x to the node |
| DirectedEdges.DirectedUnweightedEdges.AdjacentNodes | src/main/java/es/uam/eps/ir/knnbandit/graph/edges/fast/FastDirectedUnweightedEdges.java:53-56 | strictly increasing, and x is listed exactly when there is an edge from the node to x |
| DirectedEdges.DirectedUnweightedEdges.NodesInRange | src/main/java/es/uam/eps/ir/knnbandit/graph/edges/fast/FastDirectedUnweightedEdges.java:47-56 | every listed neighbour is a node of the graph |
| DirectedEdges.DirectedUnweightedEdges.AddUser | src/main/java/es/uam/eps/ir/knnbandit/graph/edges/fast/FastEdges.java:82-85 | only the next index is added, without edges, and the count stays equal to the number of pairs |
| DirectedEdges.DirectedUnweightedEdges.AddEdge | src/main/java/es/uam/eps/ir/knnbandit/graph/edges/fast/FastDirectedUnweightedEdges.java:124-132 | succeeds exactly for a missing edge between existing nodes; then that one pair is added to the edges with its type and counted once |
| DirectedEdges.DirectedUnweightedEdges.RemoveEdge | src/main/java/es/uam/eps/ir/knnbandit/graph/edges/fast/FastEdges.java:94-102 | succeeds exactly for an existing edge, removes only that pair and keeps the count equal to the number of pairs |
| DirectedEdges.DirectedUnweightedEdges.UpdateEdgeWeight | src/main/java/es/uam/eps/ir/knnbandit/graph/edges/fast/FastDirectedUnweightedEdges.java:135-138 | true exactly when the edge exists |
| DirectedEdges.DirectedUnweightedEdges.RemoveNode | src/main/java/es/uam/eps/ir/knnbandit/graph/edges/fast/FastDirectedUnweightedEdges.java:141-152 | the node and its edges go, later nodes move down one, and the count drops by the adjacent plus incident edges with a self-loop counted once, which keeps it equal to the number of pairs |
| DirectedEdges.DirectedUnweightedEdges.NodesWithIncidentEdges | src/main/java/es/uam/eps/ir/knnbandit/graph/edges/fast/FastDirectedUnweightedEdges.java:155-158 | strictly increasing: the nodes some edge reaches |
| DirectedEdges.DirectedUnweightedEdges.NodesWithAdjacentEdges | src/main/java/es/uam/eps/ir/knnbandit/graph/edges/fast/FastDirectedUnweightedEdges.java:161-164 | strictly increasing: the nodes some edge leaves |
| DirectedEdges.DirectedUnweightedEdges.NodesWithEdges | src/main/java/es/uam/eps/ir/knnbandit/graph/edges/fast/FastDirectedUnweightedEdges.java:167-174 | strictly increasing: exactly the nodes with an edge in or out |
| DirectedEdges.DirectedUnweightedEdges.NodesWithMutualEdges | src/main/java/es/uam/eps/ir/knnbandit/graph/edges/fast/FastDirectedUnweightedEdges.java:177-196 | strictly increasing: exactly the nodes some node (the node itself included, when it has a self-loop) both reaches and is reached by |
| DirectedEdges.DirectedUnweightedEdges.IncidentInRange | src/main/java/es/uam/eps/ir/knnbandit/graph/edges/fast/FastDirectedUnweightedEdges.java:183-186 | every node some edge reaches is in range for the neighbour lookups in the loop, and every node with mutual edges is among them |
| DirectedEdges.DirectedUnweightedEdges.NeighbourWeightsAsWritten | src/main/java/es/uam/eps/ir/knnbandit/graph/edges/fast/FastDirectedUnweightedEdges.java:71-121 | as written: the reported list of the queue scan with the guard currentNeigh > 0; equal to the intended list when node 0 is not a neighbour |
| DirectedEdges.DirectedUnweightedEdges.NeighbourWeights | src/main/java/es/uam/eps/ir/knnbandit/graph/edges/fast/FastDirectedUnweightedEdges.java:71-121 | corrected: every node with an edge to or from the node, once, in increasing order, weighted by how many of the two edges exist |
| Edges.FastEdges.constructor | src/main/java/es/uam/eps/ir/knnbandit/graph/edges/fast/FastEdges.java:46-50 | no nodes, no edges, count 0 |
| Edges.FastEdges.SameLists | src/main/java/es/uam/eps/ir/knnbandit/graph/edges/fast/FastEdges.java:105-114 | the type relation stores exactly the node lists of the edge relation, so its list sizes count the edges |
| Edges.FastEdges.ContainsEdge | src/main/java/es/uam/eps/ir/knnbandit/graph/edges/fast/FastEdges.java:53-56 | true exactly when the edge exists |
| Edges.FastEdges.GetEdgeWeight | src/main/java/es/uam/eps/ir/knnbandit/graph/edges/fast/FastEdges.java:59-70 | the default weight 1.0 exactly for an existing edge, the error weight NaN exactly for a missing one |
| Edges.FastEdges.GetEdgeType | src/main/java/es/uam/eps/ir/knnbandit/graph/edges/fast/FastEdges.java:73-79 | the stored type of an existing edge, -1 for a missing one |
| Edges.FastEdges.AddUser | src/main/java/es/uam/eps/ir/knnbandit/graph/edges/fast/FastEdges.java:82-85 | only the next index is added, to both relations, with no edge and no change to the pairs |
| Edges.FastEdges.RemoveEdge | src/main/java/es/uam/eps/ir/knnbandit/graph/edges/fast/FastEdges.java:94-102 | succeeds exactly for an existing edge; only the pair (orig, dest) leaves both relations, and the count drops by one |
| Edges.FastEdges.GetIncidentCount | src/main/java/es/uam/eps/ir/knnbandit/graph/edges/fast/FastEdges.java:105-108 | the number of edges into the node |
| Edges.FastEdges.GetAdjacentCount | src/main/java/es/uam/eps/ir/knnbandit/graph/edges/fast/FastEdges.java:111-114 | the number of edges out of the node |
| Edges.FastEdges.GetIsolatedNodes | src/main/java/es/uam/eps/ir/knnbandit/graph/edges/fast/FastEdges.java:129-132 | strictly increasing: exactly the nodes with no edge in or out |
| Edges.FastEdges.HasAdjacentEdges | src/main/java/es/uam/eps/ir/knnbandit/graph/edges/fast/FastEdges.java:135-138 | true exactly when some edge leaves the node |
| Edges.FastEdges.HasIncidentEdges | src/main/java/es/uam/eps/ir/knnbandit/graph/edges/fast/FastEdges.java:141-144 | true exactly when some edge reaches the node |
| Edges.FastEdges.HasEdges | src/main/java/es/uam/eps/ir/knnbandit/graph/edges/fast/FastEdges.java:147-150 | true exactly when some edge reaches or leaves the node |
| Edges.FastEdges.HasMutualEdges | src/main/java/es/uam/eps/ir/knnbandit/graph/edges/fast/FastEdges.java:153-159 | true exactly when some node both has an edge to the node and receives one from it |
| UndirectedEdges.AddBothWays | src/main/java/es/uam/eps/ir/knnbandit/graph/edges/fast/FastUndirectedUnweightedEdges.java:74-76 | for two different nodes: both directions are added to the edge relation exactly when the edge was missing, two more pairs, the same self-pairs, symmetry kept |
| UndirectedEdges.AddTypesBothWays | src/main/java/es/uam/eps/ir/knnbandit/graph/edges/fast/FastUndirectedUnweightedEdges.java:77-78 | the type is stored in both directions |
| UndirectedEdges.RemoveBothWays | src/main/java/es/uam/eps/ir/knnbandit/graph/edges/fast/FastEdges.java:94-102 | corrected for the undirected graph: both directions leave the edge relation, two pairs fewer, the same self-pairs, symmetry kept |
| UndirectedEdges.RemoveTypesBothWays | src/main/java/es/uam/eps/ir/knnbandit/graph/edges/fast/FastEdges.java:94-102 | corrected for the undirected graph: both directions' types go |
| UndirectedEdges.UndirectedUnweightedEdges.constructor | src/main/java/es/uam/eps/ir/knnbandit/graph/edges/fast/FastUndirectedUnweightedEdges.java:34-37 | no nodes, no edges, count 0 |
| UndirectedEdges.UndirectedUnweightedEdges.SameNeighbours | src/main/java/es/uam/eps/ir/knnbandit/graph/edges/fast/FastUndirectedUnweightedEdges.java:40-43 | in the symmetric relation a node's incident and adjacent lists are the same list |
| UndirectedEdges.UndirectedUnweightedEdges.NeighbourNodes | src/main/java/es/uam/eps/ir/knnbandit/graph/edges/fast/FastUndirectedUnweightedEdges.java:40-43 | strictly increasing: exactly the nodes joined to the node, in either direction |
| UndirectedEdges.UndirectedUnweightedEdges.NeighbourWeights | src/main/java/es/uam/eps/ir/knnbandit/graph/edges/fast/FastUndirectedUnweightedEdges.java:64-67 | the neighbours, in order, each with the default weight 1.0 |
| UndirectedEdges.UndirectedUnweightedEdges.AddUser | src/main/java/es/uam/eps/ir/knnbandit/graph/edges/fast/FastEdges.java:82-85 | only the next index is added, without edges; the invariant holds |
| UndirectedEdges.UndirectedUnweightedEdges.AddEdge | src/main/java/es/uam/eps/ir/knnbandit/graph/edges/fast/FastUndirectedUnweightedEdges.java:70-92 | succeeds exactly for a missing edge between existing nodes; then both directions (a self-loop once) are added with the type, and the count rises by one, keeping twice the count equal to the pairs plus the self-loops |
| UndirectedEdges.UndirectedUnweightedEdges.AddSelfLoop | src/main/java/es/uam/eps/ir/knnbandit/graph/edges/fast/FastUndirectedUnweightedEdges.java:83-90 | an edge from a node to itself succeeds exactly when the node exists and has no self-loop; the single pair is added with its type and the count rises by one, keeping twice the count equal to the pairs plus the self-loops |
| UndirectedEdges.UndirectedUnweightedEdges.UpdateEdgeWeight | src/main/java/es/uam/eps/ir/knnbandit/graph/edges/fast/FastUndirectedUnweightedEdges.java:95-98 | true exactly when the edge exists |
| UndirectedEdges.UndirectedUnweightedEdges.RemoveEdgeAsWritten | src/main/java/es/uam/eps/ir/knnbandit/graph/edges/fast/FastEdges.java:94-102 | as written: only (orig, dest) goes and the count drops by one; for two different nodes (dest, orig) remains, so the graph is no longer symmetric |
| UndirectedEdges.UndirectedUnweightedEdges.RemoveEdge | src/main/java/es/uam/eps/ir/knnbandit/graph/edges/fast/FastEdges.java:94-102 | corrected: succeeds exactly for an existing edge, both directions go, the count drops by one and the invariant holds |
| UndirectedEdges.UndirectedUnweightedEdges.RemoveSelfLoop | src/main/java/es/uam/eps/ir/knnbandit/graph/edges/fast/FastEdges.java:94-102 | corrected, for an edge from a node to itself: succeeds exactly when the self-loop exists, its single pair goes and the count drops by one, keeping the invariant |
| UndirectedEdges.UndirectedUnweightedEdges.RemoveNode | src/main/java/es/uam/eps/ir/knnbandit/graph/edges/fast/FastUndirectedUnweightedEdges.java:101-110 | the node and its edges go, later nodes move down one, and the count drops by the number of neighbours, keeping the invariant |
| UndirectedEdges.UndirectedUnweightedEdges.NodesWithEdges | src/main/java/es/uam/eps/ir/knnbandit/graph/edges/fast/FastUndirectedUnweightedEdges.java:125-128 | strictly increasing: exactly the nodes with some edge |
| UndirectedEdges.UndirectedUnweightedEdges.NodesWithMutualEdges | src/main/java/es/uam/eps/ir/knnbandit/graph/edges/fast/FastUndirectedUnweightedEdges.java:131-134 | strictly increasing: exactly the nodes with a mutual neighbour, the same as the nodes with edges |
| Indexes.InverseAppend | src/main/java/es/uam/eps/ir/knnbandit/graph/index/fast/FastIndex.java:84-95 | appending a new object at the next index keeps the map and the list inverse to each other |
| Indexes.InverseRemove | src/main/java/es/uam/eps/ir/knnbandit/graph/index/fast/FastIndex.java:100-110 | dropping the object at an index, removing it from the list and moving every later index down by one keeps the map and the list inverse to each other |
| Indexes.FastIndex.constructor | src/main/java/es/uam/eps/ir/knnbandit/graph/index/fast/FastIndex.java:44-49 | both directions empty |
| Indexes.FastIndex.Object2idx | src/main/java/es/uam/eps/ir/knnbandit/graph/index/fast/FastIndex.java:70-73 | -1 exactly for an unknown object; otherwise the index at which the list holds the object |
| Indexes.FastIndex.Idx2objectAsWritten | src/main/java/es/uam/eps/ir/knnbandit/graph/index/fast/FastIndex.java:76-81 | as written: the index equal to the size passes the bound check and the list access throws; indices in range give the object at them |
| Indexes.FastIndex.Idx2object | src/main/java/es/uam/eps/ir/knnbandit/graph/index/fast/FastIndex.java:76-81 | corrected: an object exactly for an index in range, and object2idx maps it back |
| Indexes.FastIndex.AddObject | src/main/java/es/uam/eps/ir/knnbandit/graph/index/fast/FastIndex.java:84-95 | a known object keeps its index; a new one gets the next index; both directions stay inverse |
| Indexes.FastIndex.RemoveObject | src/main/java/es/uam/eps/ir/knnbandit/graph/index/fast/FastIndex.java:98-111 | -1 and no change for an unknown object; otherwise it is removed, every later object moves down by one and its old index is returned |
| Indexes.FastIndex.ShiftDown | src/main/java/es/uam/eps/ir/knnbandit/graph/index/fast/FastIndex.java:102-106 | the same objects are mapped, every object after the removed index one lower and every other unchanged |
| Indexes.GenericIndex.constructor | src/main/java/es/uam/eps/ir/knnbandit/graph/index/fast/GenericIndex.java:41-46 | empty |
| Indexes.GenericIndex.Add | src/main/java/es/uam/eps/ir/knnbandit/graph/index/fast/GenericIndex.java:53-63 | a known element keeps its index; a new one gets index size(); getObject(getIdx(t)) == t |
| Indexes.GenericIndex.GetIdx | src/main/java/es/uam/eps/ir/knnbandit/graph/index/fast/GenericIndex.java:70-73 | -1 exactly for an unknown element; otherwise an index in range holding it |
| Indexes.GenericIndex.GetObject | src/main/java/es/uam/eps/ir/knnbandit/graph/index/fast/GenericIndex.java:80-83 | getIdx maps the result back to the index |
| Indexes.GenericIndex.Size | src/main/java/es/uam/eps/ir/knnbandit/graph/index/fast/GenericIndex.java:99-102 | the number of distinct elements, in both directions |
| Indexes.AddAll | src/main/java/es/uam/eps/ir/knnbandit/graph/index/fast/GenericIndex.java:53-63 | adding a sequence of elements gives every distinct one an index, size() counts each once and getObject(getIdx(t)) == t |
| Knn.MinExists | src/main/java/es/uam/eps/ir/knnbandit/recommendation/knn/user/AbstractInteractiveUserBasedKNN.java:128-131 | a non-empty heap has a least similar neighbour to compare with and poll |
| Knn.ReplaceLeast | src/main/java/es/uam/eps/ir/knnbandit/recommendation/knn/user/AbstractInteractiveUserBasedKNN.java:128-131 | replacing the least similar neighbour by a candidate at least as similar keeps every dropped candidate ranked at most as high as the kept ones |
| Knn.KeepOut | src/main/java/es/uam/eps/ir/knnbandit/recommendation/knn/user/AbstractInteractiveUserBasedKNN.java:128 | a candidate below the least similar neighbour stays out without breaking that ranking |
| Knn.HeapPass | src/main/java/es/uam/eps/ir/knnbandit/recommendation/knn/user/AbstractInteractiveUserBasedKNN.java:123-133 | the heap ends with min(k, n) candidates; kept plus dropped are the candidates; no dropped candidate is more similar than a kept one |
| Knn.Offer | src/main/java/es/uam/eps/ir/knnbandit/recommendation/knn/user/AbstractInteractiveUserBasedKNN.java:125-132 | one candidate: the heap grows by it while below k; once full, kept plus dropped gain exactly the candidate, and no dropped candidate is more similar than a kept one |
| Knn.TopK | src/main/java/es/uam/eps/ir/knnbandit/recommendation/knn/user/AbstractInteractiveUserBasedKNN.java:123-133 | the heap holds the top min(k, n) candidates |
| Knn.TallyKeys | src/main/java/es/uam/eps/ir/knnbandit/recommendation/knn/user/AbstractInteractiveUserBasedKNN.java:140-156 | exactly the items some contribution names are scored, each listed once in the key order |
| Knn.Snoc | src/main/java/es/uam/eps/ir/knnbandit/recommendation/knn/user/AbstractInteractiveUserBasedKNN.java:153 | addTo adds the contribution to its item's score, from a default of 0, and lists the item the first time |
| Knn.RowKeptSnoc | src/main/java/es/uam/eps/ir/knnbandit/recommendation/knn/user/AbstractInteractiveUserBasedKNN.java:148-155 | one more training rating of a neighbour adds at most one contribution, and none when ignored |
| Knn.AddTo | src/main/java/es/uam/eps/ir/knnbandit/recommendation/knn/user/AbstractInteractiveUserBasedKNN.java:153 | the map and the key order after one more contribution |
| Knn.ScoreRow | src/main/java/es/uam/eps/ir/knnbandit/recommendation/knn/user/AbstractInteractiveUserBasedKNN.java:148-155 | the scores after one neighbour's training ratings, each weighted by similarity (non-positive ones left out when zeros are ignored) |
| Knn.ScoreItems | src/main/java/es/uam/eps/ir/knnbandit/recommendation/knn/user/AbstractInteractiveUserBasedKNN.java:140-156 | the scores after every neighbour of the heap |
| Knn.SelectScored | src/main/java/es/uam/eps/ir/knnbandit/recommendation/knn/user/AbstractInteractiveUserBasedKNN.java:158-177 | the ties are empty exactly when no scored item is available; otherwise they are exactly the available scored items of the highest score |
| Knn.TopKIsTopK | src/main/java/es/uam/eps/ir/knnbandit/recommendation/knn/user/AbstractInteractiveUserBasedKNN.java:123-133 | a heap of the right size whose dropped candidates are outranked is a top-k heap |
| Knn.TopKKeepsBetter | src/main/java/es/uam/eps/ir/knnbandit/recommendation/knn/user/AbstractInteractiveUserBasedKNN.java:123-133 | a candidate strictly more similar than a kept neighbour is kept |
| Knn.TopKAll | src/main/java/es/uam/eps/ir/knnbandit/recommendation/knn/user/AbstractInteractiveUserBasedKNN.java:123-133 | with k at least the number of candidates, the heap keeps them all |
| Knn.Numbers | src/main/java/es/uam/eps/ir/knnbandit/recommendation/knn/user/AbstractInteractiveUserBasedKNN.java:124-126 | the similarity values of the candidates, one per candidate |
| Knn.Candidates | src/main/java/es/uam/eps/ir/knnbandit/recommendation/knn/user/AbstractInteractiveUserBasedKNN.java:124 | similarElems: the other users with a positive similarity, with that similarity |
| Knn.DeltasSymmetric | src/main/java/es/uam/eps/ir/knnbandit/recommendation/knn/user/InteractiveUserBasedKNN.java:56-62 | the update calls add the same to the pair (a, b) as to (b, a) |
| Knn.Step | src/main/java/es/uam/eps/ir/knnbandit/recommendation/knn/user/InteractiveUserBasedKNN.java:56-62 | an update call moves the cursor to its (user, item) pair and changes only its user's vector entry, and not at all when the pair repeats |
| Knn.Steps | src/main/java/es/uam/eps/ir/knnbandit/recommendation/knn/user/InteractiveUserBasedKNN.java:56-62 | a user that no call names keeps its vector entry |
| Knn.Feed | src/main/java/es/uam/eps/ir/knnbandit/recommendation/knn/user/InteractiveUserBasedKNN.java:60 | one update call on either similarity adds its delta to the pair matrix and steps the cursor and the vector |
| Knn.FeedAll | src/main/java/es/uam/eps/ir/knnbandit/recommendation/knn/user/InteractiveUserBasedKNN.java:56-62 | the calls in order add up their deltas and their steps |
| Knn.Rebuild | src/main/java/es/uam/eps/ir/knnbandit/recommendation/knn/user/AbstractInteractiveUserBasedKNN.java:194-197 | the bulk update leaves the similarity rebuilt from the training data, with a symmetric pair matrix |
| Knn.RebuiltCoRated | src/main/java/es/uam/eps/ir/knnbandit/recommendation/knn/user/AbstractInteractiveUserBasedKNN.java:194-197 | after a rebuild each pair entry adds the product over the items both users rated |
| Knn.RebuiltCounts | src/main/java/es/uam/eps/ir/knnbandit/recommendation/knn/user/AbstractInteractiveUserBasedKNN.java:194-197 | after a rebuild the Beta similarity's vector counts each user's ratings |
| Knn.RowPairs | src/main/java/es/uam/eps/ir/knnbandit/recommendation/knn/user/InteractiveUserBasedKNN.java:56-62 | one update call per training rater of the item, with the rating and the rater's value |
| Knn.PairsFrom | src/main/java/es/uam/eps/ir/knnbandit/recommendation/knn/user/InteractiveUserBasedKNN.java:56-62 | every update call is for a rating's user and one of its item's raters |
| Knn.Recommend | src/main/java/es/uam/eps/ir/knnbandit/recommendation/knn/user/AbstractInteractiveUserBasedKNN.java:135-182 | an available item; of the highest score when some available item is scored |
| Knn.Choose | src/main/java/es/uam/eps/ir/knnbandit/recommendation/knn/user/AbstractInteractiveUserBasedKNN.java:119-182 | the heap is the top k candidates, and the choice is an available item of the highest score when there is one |
| Knn.UserBasedKNN.constructor | src/main/java/es/uam/eps/ir/knnbandit/recommendation/knn/user/AbstractInteractiveUserBasedKNN.java:96-111 | a non-positive k means every user |
| Knn.UserBasedKNN.ColumnKeys | src/main/java/es/uam/eps/ir/knnbandit/recommendation/knn/user/InteractiveUserBasedKNN.java:58-61 | every training rater of an item is a user of the similarity |
| Knn.UserBasedKNN.Next | src/main/java/es/uam/eps/ir/knnbandit/recommendation/knn/user/AbstractInteractiveUserBasedKNN.java:113-183 | -1 iff nothing is available; otherwise an available item, the heap the top k candidates, and an item of the highest score when some available item is scored |
| Knn.UserBasedKNN.Update | src/main/java/es/uam/eps/ir/knnbandit/recommendation/knn/user/InteractiveUserBasedKNN.java:56-62 | the base update; each rating passed on makes one similarity update call per training rater of its item |
| Knn.UserBasedKNN.Record | src/main/java/es/uam/eps/ir/knnbandit/recommendation/knn/user/InteractiveUserBasedKNN.java:56-62 | the base update; the pairs are one per rating passed on and training rater of its item as the raters stood before, all within the similarity's users |
| Knn.UserBasedKNN.UpdateBatch | src/main/java/es/uam/eps/ir/knnbandit/recommendation/knn/user/AbstractInteractiveUserBasedKNN.java:193-197 | the base batch update, then the similarity rebuilt from the training data |
| Loop.RatedUsers | src/main/java/es/uam/eps/ir/knnbandit/recommendation/RecommendationLoop.java:94 | the initial pool: exactly the users with a ground-truth rating, each once, in index order |
| Loop.UpdateOne | src/main/java/es/uam/eps/ir/knnbandit/recommendation/RecommendationLoop.java:152 | one metric takes note of the pair and stays consistent |
| Loop.UpdateMetrics | src/main/java/es/uam/eps/ir/knnbandit/recommendation/RecommendationLoop.java:152 | every metric takes note of the pair and stays consistent |
| Loop.RecommendationLoop.constructor | src/main/java/es/uam/eps/ir/knnbandit/recommendation/RecommendationLoop.java:85-130 | the pool is every user with a ground-truth rating; no iteration has run |
| Loop.RecommendationLoop.Replay | src/main/java/es/uam/eps/ir/knnbandit/recommendation/RecommendationLoop.java:146-154 | the base recommender takes the pair (availability and training data as its update leaves them; the strategy's updateMethod is not forwarded, see Left out), every metric takes it, the iteration count rises by one, and the pool of users and its size stay as they were |
| Loop.RecommendationLoop.NextIteration | src/main/java/es/uam/eps/ir/knnbandit/recommendation/RecommendationLoop.java:169-206 | None exactly when the pool ends empty, with nothing fed back; otherwise a pooled user and one of its available items, fed to the base recommender (not the strategy's updateMethod) and every metric, and one more iteration; only users with nothing available leave the pool |
| Loop.RecommendationLoop.Advance | src/main/java/es/uam/eps/ir/knnbandit/recommendation/RecommendationLoop.java:187-205 | after the draw the pool is the users the do-while left; an empty pool ends the run with nothing fed back and the iteration count kept; otherwise the drawn pair is returned, fed to the base recommender (not the strategy's updateMethod) and every metric, and the iteration count rises by one |
| Loop.Draw | src/main/java/es/uam/eps/ir/knnbandit/recommendation/RecommendationLoop.java:177-193 | the do-while loop: users leave the pool only when nothing is available to them; a non-empty remaining pool ends at a user with an available item |
| Loop.NextItem | src/main/java/es/uam/eps/ir/knnbandit/recommendation/RecommendationLoop.java:182 | what every strategy's next returns: -1 iff nothing is available, otherwise an available item |
| Loop.RemoveAt | src/main/java/es/uam/eps/ir/knnbandit/recommendation/RecommendationLoop.java:191 | removing a pool position takes exactly that user out |
| Metrics.Hits | src/main/java/es/uam/eps/ir/knnbandit/metrics/CumulativeRecall.java:63-70 | the hits are at most the recommendations |
| Metrics.HitsRepeat | src/main/java/es/uam/eps/ir/knnbandit/metrics/CumulativeRecall.java:63-70 | a relevant pair recommended twice counts twice |
| Metrics.CumulativeRecall.constructor | src/main/java/es/uam/eps/ir/knnbandit/metrics/CumulativeRecall.java:47-53 | nothing seen, no hits |
| Metrics.CumulativeRecall.Compute | src/main/java/es/uam/eps/ir/knnbandit/metrics/CumulativeRecall.java:56-60 | 0 when there are no relevant pairs, otherwise hits divided by the number of relevant pairs |
| Metrics.CumulativeRecall.Update | src/main/java/es/uam/eps/ir/knnbandit/metrics/CumulativeRecall.java:63-70 | one more hit exactly when the ground truth rates the pair at least the threshold |
| Metrics.CumulativeRecall.Reset | src/main/java/es/uam/eps/ir/knnbandit/metrics/CumulativeRecall.java:73-76 | back to no hits |
| Metrics.GiniSumUpdate | src/main/java/es/uam/eps/ir/knnbandit/metrics/CumulativeGini.java:92-97 | raising one rank's frequency by one raises the numerator by that rank's weight 2j - n - 1 and the total by one |
| Metrics.GiniSumZeros | src/main/java/es/uam/eps/ir/knnbandit/metrics/CumulativeGini.java:125-136 | all-zero frequencies give a zero numerator and total |
| Metrics.FirstUnique | src/main/java/es/uam/eps/ir/knnbandit/metrics/CumulativeGini.java:56-71 | a run of equal frequencies starts at one rank only |
| Metrics.LastUnique | src/main/java/es/uam/eps/ir/knnbandit/metrics/CumulativeGini.java:56-71 | a run of equal frequencies ends at one rank only |
| Metrics.BucketWidth | src/main/java/es/uam/eps/ir/knnbandit/metrics/CumulativeGini.java:56-71 | the rank maps bound exactly the ranks holding a frequency |
| Metrics.ZeroCounts | src/main/java/es/uam/eps/ir/knnbandit/metrics/CumulativeGini.java:132 | every item starts at frequency zero |
| Metrics.CountVector | src/main/java/es/uam/eps/ir/knnbandit/metrics/CumulativeGini.java:87-89 | the frequencies read item by item |
| Metrics.CumulativeGini.constructor | src/main/java/es/uam/eps/ir/knnbandit/metrics/CumulativeGini.java:56-71 | every item at frequency zero, one run over all ranks, zero sums |
| Metrics.CumulativeGini.Compute | src/main/java/es/uam/eps/ir/knnbandit/metrics/CumulativeGini.java:74-79 | NaN iff at most one item or no recommendation yet; otherwise numerator over (n - 1) times the total, the Gini index of the frequencies |
| Metrics.CumulativeGini.Update | src/main/java/es/uam/eps/ir/knnbandit/metrics/CumulativeGini.java:82-122 | the item's frequency rises by one; its run loses its last rank to the next frequency's run; the sorted vector and the sums move accordingly |
| Metrics.CumulativeGini.Reset | src/main/java/es/uam/eps/ir/knnbandit/metrics/CumulativeGini.java:125-136 | back to the constructor's state |
| Metrics.GiniInit | src/main/java/es/uam/eps/ir/knnbandit/metrics/CumulativeGini.java:56-71 | the constructor's fields mean what they should: sorted zeros, one run, zero numerator |
| Metrics.GiniStep | src/main/java/es/uam/eps/ir/knnbandit/metrics/CumulativeGini.java:82-122 | one update keeps the meaning of the fields: sorted frequencies, runs, total and numerator |
| Metrics.IncrementIdentity | src/main/java/es/uam/eps/ir/knnbandit/metrics/CumulativeGini.java:95-97 | the source's two-term increment equals the weight of the rank that moves |
| Metrics.NextRunStart | src/main/java/es/uam/eps/ir/knnbandit/metrics/CumulativeGini.java:93 | the next frequency's run starts right after the current one's |
| Metrics.UpdateSorted | src/main/java/es/uam/eps/ir/knnbandit/metrics/CumulativeGini.java:82-122 | raising the last rank of a run keeps the vector sorted |
| Metrics.RunOther | src/main/java/es/uam/eps/ir/knnbandit/metrics/CumulativeGini.java:103-121 | runs of other frequencies are untouched |
| Metrics.RunShrinks | src/main/java/es/uam/eps/ir/knnbandit/metrics/CumulativeGini.java:107-110 | the old frequency's run loses its last rank |
| Metrics.RunGrows | src/main/java/es/uam/eps/ir/knnbandit/metrics/CumulativeGini.java:118-121 | the next frequency's run gains the rank before it |
| Metrics.RunNew | src/main/java/es/uam/eps/ir/knnbandit/metrics/CumulativeGini.java:113-116 | otherwise the next frequency gets a run of one rank |
| Metrics.UpdateKeys | src/main/java/es/uam/eps/ir/knnbandit/metrics/CumulativeGini.java:103-121 | after an update the rank maps hold exactly the frequencies present |
| Metrics.UpdateBuckets | src/main/java/es/uam/eps/ir/knnbandit/metrics/CumulativeGini.java:103-121 | the rank maps as updated delimit the runs of the updated vector |
| Metrics.UpdateBag | src/main/java/es/uam/eps/ir/knnbandit/metrics/CumulativeGini.java:88-89 | the sorted vector stays a permutation of the frequencies |
| MatrixFactorization.Clean | src/main/java/es/uam/eps/ir/knnbandit/recommendation/mf/InteractiveMF.java:112 | a NaN score counts as -Infinity; other scores are kept |
| MatrixFactorization.Scores | src/main/java/es/uam/eps/ir/knnbandit/recommendation/mf/InteractiveMF.java:109-113 | one cleaned predicted score per candidate, never NaN |
| MatrixFactorization.Tick | src/main/java/es/uam/eps/ir/knnbandit/recommendation/mf/InteractiveMF.java:140-149 | a positive rating counts; the counter reaching the limit of 100 restarts it and asks for a new factorisation |
| MatrixFactorization.Run | src/main/java/es/uam/eps/ir/knnbandit/recommendation/mf/InteractiveMF.java:140-149 | the counter stays below the limit over a run of ratings |
| MatrixFactorization.PositiveCount | src/main/java/es/uam/eps/ir/knnbandit/recommendation/mf/InteractiveMF.java:142-143 | the positive ratings are at most the ratings |
| MatrixFactorization.RunCounts | src/main/java/es/uam/eps/ir/knnbandit/recommendation/mf/InteractiveMF.java:140-149 | after a run the counter is the running total of positive ratings modulo 100, and the refits are that total divided by 100 |
| MatrixFactorization.Values | src/main/java/es/uam/eps/ir/knnbandit/recommendation/mf/InteractiveMF.java:140 | the rating values of the calls, in order |
| MatrixFactorization.InteractiveMF.constructor | src/main/java/es/uam/eps/ir/knnbandit/recommendation/mf/InteractiveMF.java:66-93 | a non-positive k means the number of users; the counter starts at zero with the factoriser's first result |
| MatrixFactorization.InteractiveMF.Next | src/main/java/es/uam/eps/ir/knnbandit/recommendation/mf/InteractiveMF.java:96-130 | -1 iff nothing is available; otherwise an available item, and for a user with a latent vector one of maximum predicted score with NaN as -Infinity |
| MatrixFactorization.InteractiveMF.Record | src/main/java/es/uam/eps/ir/knnbandit/recommendation/mf/InteractiveMF.java:140-149 | the counter as Tick leaves it, and the refit replaces the factorisation exactly when Tick asks for one |
| MatrixFactorization.InteractiveMF.RecordAll | src/main/java/es/uam/eps/ir/knnbandit/recommendation/mf/InteractiveMF.java:140-149 | over the ratings of one update: the counter as Run leaves it; the factorisation unchanged without a refit, one of the refits otherwise |
| MatrixFactorization.InteractiveMF.Update | src/main/java/es/uam/eps/ir/knnbandit/recommendation/mf/InteractiveMF.java:140-149 | the base update (availability and training data), then the counter as Run leaves it over the ratings passed on |
| MatrixFactorization.InteractiveMF.UpdateBatch | src/main/java/es/uam/eps/ir/knnbandit/recommendation/mf/InteractiveMF.java:133-137 | the base batch update; the counter restarts and the factorisation is kept, since the new one is discarded |
| Neighbours.Values | src/main/java/es/uam/eps/ir/knnbandit/graph/edges/fast/FastDirectedUnweightedEdges.java:91 | the nodes the queue releases, in order |
| Neighbours.SweepSnoc | src/main/java/es/uam/eps/ir/knnbandit/graph/edges/fast/FastDirectedUnweightedEdges.java:89-112 | the loop state after one more poll is one Step of the state before |
| Neighbours.PollsValues | src/main/java/es/uam/eps/ir/knnbandit/graph/edges/fast/FastDirectedUnweightedEdges.java:74-112 | from two strictly sorted lists the queue releases every node of both, in non-decreasing order |
| Neighbours.SweepCounting | src/main/java/es/uam/eps/ir/knnbandit/graph/edges/fast/FastDirectedUnweightedEdges.java:89-112 | with the intended guard the loop keeps every closed node once with its count, and the open node's count |
| Neighbours.CountingRepeat | src/main/java/es/uam/eps/ir/knnbandit/graph/edges/fast/FastDirectedUnweightedEdges.java:93-107 | a node polled again adds one to its count |
| Neighbours.CountingNew | src/main/java/es/uam/eps/ir/knnbandit/graph/edges/fast/FastDirectedUnweightedEdges.java:93-104 | a larger node closes the current count and opens its own |
| Neighbours.ReportedCounts | src/main/java/es/uam/eps/ir/knnbandit/graph/edges/fast/FastDirectedUnweightedEdges.java:89-118 | with the intended guard each polled node is reported once, increasing, with the number of times it was polled |
| Neighbours.NeighbourWeightsCounted | src/main/java/es/uam/eps/ir/knnbandit/graph/edges/fast/FastDirectedUnweightedEdges.java:71-121 | the neighbour weights: each incident or adjacent node once, increasing, weighted by the number of the two lists holding it |
| Neighbours.SweepAgreesWithoutZero | src/main/java/es/uam/eps/ir/knnbandit/graph/edges/fast/FastDirectedUnweightedEdges.java:95 | away from node 0 the written guard and the intended one give the same loop state |
| Neighbours.ReportedAgreesWithoutZero | src/main/java/es/uam/eps/ir/knnbandit/graph/edges/fast/FastDirectedUnweightedEdges.java:95-118 | away from node 0 the two guards report the same list |
| Neighbours.NodeZeroMerged | src/main/java/es/uam/eps/ir/knnbandit/graph/edges/fast/FastDirectedUnweightedEdges.java:95-104 | with incident [0] and adjacent [1], the written guard drops node 0 and gives node 1 a weight of 2 |
| Neighbours.ScanNeighbours | src/main/java/es/uam/eps/ir/knnbandit/graph/edges/fast/FastDirectedUnweightedEdges.java:71-121 | the loop reports exactly what the queue's polls give under the chosen guard |
| Preferences.TotalSizeUpdate | src/main/java/es/uam/eps/ir/knnbandit/data/preference/fast/SimpleFastUpdateablePreferenceData.java:149-152 | replacing one list changes the preference count by the difference in its length |
| Preferences.PutPair | src/main/java/es/uam/eps/ir/knnbandit/data/preference/fast/SimpleFastUpdateablePreferenceData.java:245-279 | storing a pair on both sides keeps both sides sorted and mirrored and changes only that pair |
| Preferences.UpdatePreference | src/main/java/es/uam/eps/ir/knnbandit/data/preference/fast/SimpleFastUpdateablePreferenceData.java:288-311 | the list stays sorted; true iff the index was absent; one entry longer exactly then; the index now holds the value and nothing else changes |
| Preferences.DeletePreference | src/main/java/es/uam/eps/ir/knnbandit/data/preference/fast/SimpleFastUpdateablePreferenceData.java:337-355 | a null list stays null and reports false; otherwise true iff the index was present, and it is gone with nothing else changed |
| Preferences.NonNull | src/main/java/es/uam/eps/ir/knnbandit/data/preference/fast/SimpleFastUpdateablePreferenceData.java:155-159 | exactly the indices of the non-null lists, increasing |
| Preferences.EntriesFirstRating | src/main/java/es/uam/eps/ir/knnbandit/data/preference/fast/SimpleFastUpdateablePreferenceData.java:410-430 | both loaded sides find, for a pair, its first rating in the input |
| Preferences.UserEntriesFrom | src/main/java/es/uam/eps/ir/knnbandit/data/preference/fast/SimpleFastUpdateablePreferenceData.java:420-422 | every entry of a user's list comes from a rating of that user |
| Preferences.ItemEntriesFrom | src/main/java/es/uam/eps/ir/knnbandit/data/preference/fast/SimpleFastUpdateablePreferenceData.java:424-429 | every entry of an item's list comes from a rating of that item |
| Preferences.EntriesDistinct | src/main/java/es/uam/eps/ir/knnbandit/data/preference/fast/SimpleFastUpdateablePreferenceData.java:410-430 | without repeated pairs no list receives the same index twice |
| Preferences.SortAll | src/main/java/es/uam/eps/ir/knnbandit/data/preference/fast/SimpleFastUpdateablePreferenceData.java:86-100 | every non-null list is sorted by index, null lists stay null |
| Preferences.SortAllSize | src/main/java/es/uam/eps/ir/knnbandit/data/preference/fast/SimpleFastUpdateablePreferenceData.java:86-100 | sorting keeps every list's length, hence the total |
| Preferences.NoEntriesOutside | src/main/java/es/uam/eps/ir/knnbandit/data/preference/fast/SimpleFastUpdateablePreferenceData.java:392-433 | the input names nothing outside the matrix, so those lookups are empty |
| Preferences.LoadFirstRating | src/main/java/es/uam/eps/ir/knnbandit/data/preference/fast/SimpleFastUpdateablePreferenceData.java:392-433 | loaded lists look up, on both sides, the first rating of each pair in the input |
| Preferences.LoadSorted | src/main/java/es/uam/eps/ir/knnbandit/data/preference/fast/SimpleFastUpdateablePreferenceData.java:392-433 | without repeated pairs every loaded list is strictly sorted and the two sides mirror |
| Preferences.EntriesStep | src/main/java/es/uam/eps/ir/knnbandit/data/preference/fast/SimpleFastUpdateablePreferenceData.java:410-430 | reading one more rating appends it to its user's and its item's entries only |
| Preferences.UnsortedUsersStep | src/main/java/es/uam/eps/ir/knnbandit/data/preference/fast/SimpleFastUpdateablePreferenceData.java:415-422 | a rating goes to the end of its user's list, which becomes non-null |
| Preferences.UnsortedItemsStep | src/main/java/es/uam/eps/ir/knnbandit/data/preference/fast/SimpleFastUpdateablePreferenceData.java:424-429 | a rating goes to the end of its item's list, which becomes non-null |
| Preferences.SortAllUnsorted | src/main/java/es/uam/eps/ir/knnbandit/data/preference/fast/SimpleFastUpdateablePreferenceData.java:86-100 | sorting the appended lists gives the loaded ones |
| Preferences.PreferenceStore.Load | src/main/java/es/uam/eps/ir/knnbandit/data/preference/fast/SimpleFastUpdateablePreferenceData.java:392-433 | the count is the number of input ratings; the lists are the loaded ones; each pair holds its first rating; without repeated pairs the store is consistent |
| Preferences.ReadAll | src/main/java/es/uam/eps/ir/knnbandit/data/preference/fast/SimpleFastUpdateablePreferenceData.java:399-429 | the count is the number of input ratings and the user and item lists are the unsorted loaded ones, holding one entry per rating |
| Preferences.PreferenceStore.GetPreference | src/main/java/es/uam/eps/ir/knnbandit/data/preference/fast/SimpleFastUpdateablePreferenceData.java:185-198 | found iff the user rated the item, with that rating; empty for a null list |
| Preferences.PreferenceStore.UidxWithPreferences | src/main/java/es/uam/eps/ir/knnbandit/data/preference/fast/SimpleFastUpdateablePreferenceData.java:155-159 | exactly the users whose list is not null, increasing |
| Preferences.PreferenceStore.AddUser | src/main/java/es/uam/eps/ir/knnbandit/data/preference/fast/SimpleFastUpdateablePreferenceData.java:223-231 | a null list is appended exactly when the index is one past the last; nothing else changes |
| Preferences.PreferenceStore.AddItem | src/main/java/es/uam/eps/ir/knnbandit/data/preference/fast/SimpleFastUpdateablePreferenceData.java:234-242 | the item-side counterpart of AddUser |
| Preferences.PreferenceStore.UpdateRating | src/main/java/es/uam/eps/ir/knnbandit/data/preference/fast/SimpleFastUpdateablePreferenceData.java:245-279 | outside the matrix nothing changes; inside, the pair holds the rating on both sides, the count grows iff it was new, and no other list changes |
| Preferences.PreferenceStore.UpdateDelete | src/main/java/es/uam/eps/ir/knnbandit/data/preference/fast/SimpleFastUpdateablePreferenceData.java:314-329 | outside the matrix nothing changes; inside, the pair is gone, the count drops iff it was there, and no list turns null or non-null |
| Recommender.Range | src/main/java/es/uam/eps/ir/knnbandit/recommendation/InteractiveRecommender.java:116-119 | every item index, in order |
| Recommender.Without | src/main/java/es/uam/eps/ir/knnbandit/recommendation/InteractiveRecommender.java:178 | the elements not removed, in order |
| Recommender.IndexOf | src/main/java/es/uam/eps/ir/knnbandit/recommendation/InteractiveRecommender.java:178 | the first position of the element, -1 iff absent |
| Recommender.RemoveFirst | src/main/java/es/uam/eps/ir/knnbandit/recommendation/InteractiveRecommender.java:178 | removing the first occurrence shortens the list by one |
| Recommender.RemoveFirstWithout | src/main/java/es/uam/eps/ir/knnbandit/recommendation/InteractiveRecommender.java:178 | in a list without repeats, removing the first occurrence removes the element |
| Recommender.WithoutSplit | src/main/java/es/uam/eps/ir/knnbandit/recommendation/InteractiveRecommender.java:224-241 | removal distributes over concatenation |
| Recommender.WithoutNone | src/main/java/es/uam/eps/ir/knnbandit/recommendation/InteractiveRecommender.java:224-241 | removing absent elements changes nothing |
| Recommender.WithoutTwice | src/main/java/es/uam/eps/ir/knnbandit/recommendation/InteractiveRecommender.java:224-241 | two removals in a row remove the union |
| Recommender.WithoutDistinct | src/main/java/es/uam/eps/ir/knnbandit/recommendation/InteractiveRecommender.java:224-241 | removal keeps a list without repeats |
| Recommender.LastRating | src/main/java/es/uam/eps/ir/knnbandit/recommendation/InteractiveRecommender.java:176 | the latest rating of a pair exists iff some call rated it |
| Recommender.LastRatingAppend | src/main/java/es/uam/eps/ir/knnbandit/recommendation/InteractiveRecommender.java:176 | the latest rating over more calls is the later one's if any |
| Recommender.RetiredOne | src/main/java/es/uam/eps/ir/knnbandit/recommendation/InteractiveRecommender.java:178 | only one user's list changes, and it loses the element |
| Recommender.InteractiveRecommender.constructor | src/main/java/es/uam/eps/ir/knnbandit/recommendation/InteractiveRecommender.java:70-79 | every user may be recommended every item; training data is empty |
| Recommender.InteractiveRecommender.People | src/main/java/es/uam/eps/ir/knnbandit/recommendation/InteractiveRecommender.java:89-101 | people-to-people: every user may be recommended every other user; training data is empty |
| Recommender.InteractiveRecommender.Feed | src/main/java/es/uam/eps/ir/knnbandit/recommendation/InteractiveRecommender.java:171-177 | used feedback is recorded and stored; only the item's training list changes |
| Recommender.InteractiveRecommender.Drop | src/main/java/es/uam/eps/ir/knnbandit/recommendation/InteractiveRecommender.java:178 | the item leaves the user's list and nothing else changes |
| Recommender.InteractiveRecommender.Update | src/main/java/es/uam/eps/ir/knnbandit/recommendation/InteractiveRecommender.java:169-196 | the feedback passed on is the pair then, for an accepted link, its reverse; availability as Accepted; training data stores the feedback |
| Recommender.InteractiveRecommender.Retired | src/main/java/es/uam/eps/ir/knnbandit/recommendation/InteractiveRecommender.java:224-241 | the items a batch retires from a user are exactly those some pair retires |
| Recommender.InteractiveRecommender.UpdatePair | src/main/java/es/uam/eps/ir/knnbandit/recommendation/InteractiveRecommender.java:213-242 | one pair of a batch: its feedback is collected and stored, and it and (people-to-people) its reverse are retired where still available |
| Recommender.InteractiveRecommender.Retire | src/main/java/es/uam/eps/ir/knnbandit/recommendation/InteractiveRecommender.java:224-225 | the item leaves the user's list if it is there |
| Recommender.InteractiveRecommender.UpdateBatch | src/main/java/es/uam/eps/ir/knnbandit/recommendation/InteractiveRecommender.java:210-246 | every pair fed back and retired, then all the collected feedback passed on at once |
| Recommender.InteractiveRecommender.StoredAppend | src/main/java/es/uam/eps/ir/knnbandit/recommendation/InteractiveRecommender.java:176 | storing one more rating changes only that pair, and only inside the matrix |
| Recommender.InteractiveRecommender.StoredConcat | src/main/java/es/uam/eps/ir/knnbandit/recommendation/InteractiveRecommender.java:245 | storing two batches in turn is storing their concatenation |
| Recommender.InteractiveRecommender.UsesAll | src/main/java/es/uam/eps/ir/knnbandit/recommendation/InteractiveRecommender.java:262-265 | true iff every feedback is used |
| Similarities.ConsistentKeys | src/main/java/es/uam/eps/ir/knnbandit/recommendation/knn/similarities/VectorCosineSimilarity.java:84-105 | the indices a consistent matrix stores stay inside it |
| Similarities.ColSumLookup | src/main/java/es/uam/eps/ir/knnbandit/recommendation/knn/similarities/VectorCosineSimilarity.java:97-100 | in a sorted item list the inner loop adds the product for the other user at most once |
| Similarities.DenseAppend | src/main/java/es/uam/eps/ir/knnbandit/recommendation/knn/similarities/VectorCosineSimilarity.java:95-102 | one more rating of the user adds its one co-rated product |
| Similarities.DenseEmpty | src/main/java/es/uam/eps/ir/knnbandit/recommendation/knn/similarities/VectorCosineSimilarity.java:95-102 | a user without ratings adds nothing |
| Similarities.CrossDense | src/main/java/es/uam/eps/ir/knnbandit/recommendation/knn/similarities/VectorCosineSimilarity.java:95-102 | over a consistent matrix the bulk numerator of a sorted list is the sum over co-rated items |
| Similarities.DenseRows | src/main/java/es/uam/eps/ir/knnbandit/recommendation/knn/similarities/VectorCosineSimilarity.java:95-102 | that sum for a user's own list is the co-rated sum of the two users |
| Similarities.CoRatedSymmetric | src/main/java/es/uam/eps/ir/knnbandit/recommendation/knn/similarities/VectorCosineSimilarity.java:84-105 | with a symmetric product the co-rated sum does not depend on the order of the users |
| Similarities.BulkNumerator | src/main/java/es/uam/eps/ir/knnbandit/recommendation/knn/similarities/VectorCosineSimilarity.java:84-105 | the bulk numerator is the dot product of the rating vectors for cosine and the number of co-rated items for Beta |
| Similarities.BulkSymmetric | src/main/java/es/uam/eps/ir/knnbandit/recommendation/knn/similarities/VectorCosineSimilarity.java:84-105 | hence the bulk numerators are symmetric |
| Similarities.CrossOutside | src/main/java/es/uam/eps/ir/knnbandit/recommendation/knn/similarities/VectorCosineSimilarity.java:84-105 | beyond the indices the item lists hold, the bulk numerator is 0 |
| Similarities.ColSumOutside | src/main/java/es/uam/eps/ir/knnbandit/recommendation/knn/similarities/VectorCosineSimilarity.java:97-100 | an item list without the other user adds nothing |
| Similarities.AddColumn | src/main/java/es/uam/eps/ir/knnbandit/recommendation/knn/similarities/VectorCosineSimilarity.java:97-100 | every entry of the item list adds the product of the ratings to the user's row |
| Similarities.AddRow | src/main/java/es/uam/eps/ir/knnbandit/recommendation/knn/similarities/VectorCosineSimilarity.java:95-102 | each rating of the user feeds its item's list into the user's row; the result is the user's norm |
| Similarities.Recompute | src/main/java/es/uam/eps/ir/knnbandit/recommendation/knn/similarities/VectorCosineSimilarity.java:84-105 | the users' block is zeroed and refilled, entry by entry the bulk numerator, and the weights become the norms |
| Similarities.Neighbours | src/main/java/es/uam/eps/ir/knnbandit/recommendation/knn/similarities/VectorCosineSimilarity.java:78-81 | only other users, of positive similarity, with that similarity, in increasing order |
| Similarities.NeighboursComplete | src/main/java/es/uam/eps/ir/knnbandit/recommendation/knn/similarities/VectorCosineSimilarity.java:78-81 | every other user of positive similarity is listed |
| Similarities.VectorCosineSimilarity.constructor | src/main/java/es/uam/eps/ir/knnbandit/recommendation/knn/similarities/VectorCosineSimilarity.java:40-47 | zero products and norms; the matrix is symmetric |
| Similarities.VectorCosineSimilarity.Update | src/main/java/es/uam/eps/ir/knnbandit/recommendation/knn/similarities/VectorCosineSimilarity.java:50-64 | the product of both ratings joins (u, v) and (v, u); symmetry kept; the squared rating joins u's norm once per new (user, item) cursor |
| Similarities.VectorCosineSimilarity.Similarity | src/main/java/es/uam/eps/ir/knnbandit/recommendation/knn/similarities/VectorCosineSimilarity.java:67-75 | 0 when the product of the roots of the norms is 0, otherwise the scalar product divided by it |
| Similarities.VectorCosineSimilarity.SimilaritySymmetric | src/main/java/es/uam/eps/ir/knnbandit/recommendation/knn/similarities/VectorCosineSimilarity.java:67-75 | on a symmetric matrix the similarity is symmetric |
| Similarities.VectorCosineSimilarity.SimilarElems | src/main/java/es/uam/eps/ir/knnbandit/recommendation/knn/similarities/VectorCosineSimilarity.java:78-81 | the other users of positive similarity, in index order, with that similarity |
| Similarities.VectorCosineSimilarity.UpdateAll | src/main/java/es/uam/eps/ir/knnbandit/recommendation/knn/similarities/VectorCosineSimilarity.java:84-105 | the scalar products become the co-rated sums of the training data and the norms the sums of squared ratings; symmetric on a consistent matrix |
| Similarities.BetaStochasticSimilarity.constructor | src/main/java/es/uam/eps/ir/knnbandit/recommendation/knn/similarities/stochastic/BetaStochasticSimilarity.java:61-84 | zero counts; the matrix is symmetric |
| Similarities.BetaStochasticSimilarity.Update | src/main/java/es/uam/eps/ir/knnbandit/recommendation/knn/similarities/stochastic/BetaStochasticSimilarity.java:106-120 | a pair of ratings of the same sign counts once for (u, v) and once for (v, u); a positive rating counts for u once per new cursor |
| Similarities.BetaStochasticSimilarity.ExactSimilarity | src/main/java/es/uam/eps/ir/knnbandit/recommendation/knn/similarities/stochastic/BetaStochasticSimilarity.java:88-96 | the ratio of the alpha count plus alpha to the user count plus beta; not finite when that denominator is 0 |
| Similarities.BetaStochasticSimilarity.ExactSimilarElems | src/main/java/es/uam/eps/ir/knnbandit/recommendation/knn/similarities/stochastic/BetaStochasticSimilarity.java:99-103 | the other users of positive exact similarity, in index order |
| Similarities.BetaStochasticSimilarity.SampledElems | src/main/java/es/uam/eps/ir/knnbandit/recommendation/knn/similarities/stochastic/BetaStochasticSimilarity.java:123-138 | the other users whose sampled similarity is positive, in index order |
| Similarities.BetaStochasticSimilarity.UpdateAll | src/main/java/es/uam/eps/ir/knnbandit/recommendation/knn/similarities/stochastic/BetaStochasticSimilarity.java:153-175 | every rating counts whatever its sign: the user counts become list lengths and the pair counts the number of co-rated items; symmetric on a consistent matrix |
| Similarities.WeightUnit | src/main/java/es/uam/eps/ir/knnbandit/recommendation/knn/similarities/stochastic/BetaStochasticSimilarity.java:166-172 | the bulk user count is the length of the user's list |
| UnweightedRelations.Invert | src/main/java/es/uam/eps/ir/knnbandit/graph/index/FastUnweightedAutoRelation.java:41-54 | the inverse lists: a second element lists a first element exactly when that first element lists it, collected in order |
| UnweightedRelations.InverseValid | src/main/java/es/uam/eps/ir/knnbandit/graph/index/FastUnweightedAutoRelation.java:56-62 | sorting the given lists and their inverse gives sorted, mirrored lists holding exactly the given pairs |
| UnweightedRelations.FoundAfterHead | src/main/java/es/uam/eps/ir/knnbandit/graph/index/FastUnweightedPairwiseRelation.java:198-201 | the search compared with > 0 finds an element iff it is present and not at the head |
| UnweightedRelations.InsertUnlessAfterHead | src/main/java/es/uam/eps/ir/knnbandit/graph/index/FastUnweightedPairwiseRelation.java:167-189 | the pairwise insertion step: no change when found past the head, insertion in order when absent, a duplicate at position 1 when at the head |
| UnweightedRelations.UnweightedRelation.AddFirstItem | src/main/java/es/uam/eps/ir/knnbandit/graph/index/FastUnweightedRelation.java:98-111 | accepted iff the index is one past the last, adding an empty list on both sides; the pairs do not change |
| UnweightedRelations.UnweightedRelation.AddRelation | src/main/java/es/uam/eps/ir/knnbandit/graph/index/FastUnweightedRelation.java:114-136 | accepted iff in range and not yet related; then the pair is added at its sorted place on both sides and the size grows by one; otherwise nothing changes |
| UnweightedRelations.UnweightedRelation.ContainsPair | src/main/java/es/uam/eps/ir/knnbandit/graph/index/FastUnweightedRelation.java:145-149 | true iff the pair is related |
| UnweightedRelations.UnweightedRelation.UpdatePair | src/main/java/es/uam/eps/ir/knnbandit/graph/index/FastUnweightedRelation.java:152-174 | true iff in range and already related or asked to create; only a missing pair is added |
| UnweightedRelations.UnweightedRelation.RemovePair | src/main/java/es/uam/eps/ir/knnbandit/graph/index/FastUnweightedRelation.java:177-190 | true iff the pair was related; it is then gone on both sides and the size drops by one; otherwise nothing changes |
| UnweightedRelations.UnweightedRelation.HasSeconds | src/main/java/es/uam/eps/ir/knnbandit/graph/index/FastUnweightedRelation.java:237-242 | true iff the first element relates to something |
| UnweightedRelations.UnweightedRelation.HasFirsts | src/main/java/es/uam/eps/ir/knnbandit/graph/index/FastUnweightedRelation.java:245-249 | true iff something relates to the second element |
| UnweightedRelations.UnweightedRelation.FirstsWithSeconds | src/main/java/es/uam/eps/ir/knnbandit/graph/index/FastUnweightedRelation.java:219-225 | exactly the first elements relating to something, increasing |
| UnweightedRelations.UnweightedRelation.SecondsWithFirsts | src/main/java/es/uam/eps/ir/knnbandit/graph/index/FastUnweightedRelation.java:228-234 | exactly the second elements something relates to, increasing |
| UnweightedRelations.UnweightedAutoRelation.constructor | src/main/java/es/uam/eps/ir/knnbandit/graph/index/FastUnweightedAutoRelation.java:37-63 | a valid relation holding exactly the pairs of the given lists |
| UnweightedRelations.UnweightedAutoRelation.Remove | src/main/java/es/uam/eps/ir/knnbandit/graph/index/FastUnweightedAutoRelation.java:93-142 | false iff out of range, with nothing changed; otherwise the node is gone and the remaining pairs are the old ones renumbered |
| UnweightedRelations.UnweightedAutoRelation.RemoveAsWritten | src/main/java/es/uam/eps/ir/knnbandit/graph/index/FastUnweightedAutoRelation.java:93-142 | the source's removal, which skips positions rather than entries |
| UnweightedRelations.UnweightedAutoRelation.GetIsolated | src/main/java/es/uam/eps/ir/knnbandit/graph/index/FastUnweightedAutoRelation.java:66-72 | exactly the nodes with neither outgoing nor incoming pairs, increasing |
| UnweightedRelations.SkippingRemoved | src/main/java/es/uam/eps/ir/knnbandit/graph/index/FastUnweightedAutoRelation.java:109-136 | the source's removal leaves one list fewer |
| UnweightedRelations.RemoveLosesEdge | src/main/java/es/uam/eps/ir/knnbandit/graph/index/FastUnweightedAutoRelation.java:109-136 | node 0 with edges to 1 and 2: removing node 1 loses the edge to node 2 |
| UnweightedRelations.UnweightedPairwiseRelation.constructor | src/main/java/es/uam/eps/ir/knnbandit/graph/index/FastUnweightedPairwiseRelation.java:50-77 | both sides empty |
| UnweightedRelations.UnweightedPairwiseRelation.NumFirst | src/main/java/es/uam/eps/ir/knnbandit/graph/index/FastUnweightedPairwiseRelation.java:80-89 | the number of first elements, above every related one |
| UnweightedRelations.UnweightedPairwiseRelation.NumSecond | src/main/java/es/uam/eps/ir/knnbandit/graph/index/FastUnweightedPairwiseRelation.java:92-101 | the number of second elements, above every related one |
| UnweightedRelations.UnweightedPairwiseRelation.AddFirstItem | src/main/java/es/uam/eps/ir/knnbandit/graph/index/FastUnweightedPairwiseRelation.java:139-150 | accepted iff one past the last first element, adding its empty list; pairs unchanged |
| UnweightedRelations.UnweightedPairwiseRelation.AddSecondItem | src/main/java/es/uam/eps/ir/knnbandit/graph/index/FastUnweightedPairwiseRelation.java:153-164 | accepted iff one past the last second element, adding its empty list; pairs unchanged |
| UnweightedRelations.UnweightedPairwiseRelation.ContainsPairAsWritten | src/main/java/es/uam/eps/ir/knnbandit/graph/index/FastUnweightedPairwiseRelation.java:198-201 | true iff related and the first element does not head the second element's list |
| UnweightedRelations.UnweightedPairwiseRelation.ContainsPair | src/main/java/es/uam/eps/ir/knnbandit/graph/index/FastUnweightedPairwiseRelation.java:198-201 | true iff related |
| UnweightedRelations.UnweightedPairwiseRelation.AddRelationAsWritten | src/main/java/es/uam/eps/ir/knnbandit/graph/index/FastUnweightedPairwiseRelation.java:167-189 | the source's insertion with the > 0 comparisons |
| UnweightedRelations.UnweightedPairwiseRelation.AddRelation | src/main/java/es/uam/eps/ir/knnbandit/graph/index/FastUnweightedPairwiseRelation.java:167-189 | accepted iff in range and not yet related; exactly that pair is added |
| UnweightedRelations.UnweightedPairwiseRelation.UpdatePairAsWritten | src/main/java/es/uam/eps/ir/knnbandit/graph/index/FastUnweightedPairwiseRelation.java:204-226 | the source's update with the > 0 comparison |
| UnweightedRelations.UnweightedPairwiseRelation.UpdatePair | src/main/java/es/uam/eps/ir/knnbandit/graph/index/FastUnweightedPairwiseRelation.java:204-226 | true iff in range and related or asked to create; only a missing pair is added |
| UnweightedRelations.UnweightedPairwiseRelation.RemovePair | src/main/java/es/uam/eps/ir/knnbandit/graph/index/FastUnweightedPairwiseRelation.java:229-242 | true iff related; exactly that pair is gone |
| UnweightedRelations.AfterSearch | src/main/java/es/uam/eps/ir/knnbandit/graph/index/FastUnweightedPairwiseRelation.java:184 | the insertion point after a failed search |
| UnweightedRelations.PairAtHeadMishandled | src/main/java/es/uam/eps/ir/knnbandit/graph/index/FastUnweightedPairwiseRelation.java:167-226 | for the single pair (0, 0): containsPair says absent, and addRelation and updatePair insert a duplicate |
| WeightedRelations.AppendEmptyRow | src/main/java/es/uam/eps/ir/knnbandit/graph/index/FastWeightedRelation.java:97-109 | an empty row stores no weight and keeps the rows sorted |
| WeightedRelations.InvertRows | src/main/java/es/uam/eps/ir/knnbandit/graph/index/FastWeightedAutoRelation.java:42-55 | the inverse rows, collected in order |
| WeightedRelations.InverseRowsValid | src/main/java/es/uam/eps/ir/knnbandit/graph/index/FastWeightedAutoRelation.java:57-62 | sorting the given rows and their inverse gives sorted, mirrored rows storing exactly the given weights |
| WeightedRelations.RenumberRow | src/main/java/es/uam/eps/ir/knnbandit/graph/index/FastWeightedAutoRelation.java:85-113 | a row rebuilt without the node and with larger indices lowered, and the number of entries dropped |
| WeightedRelations.ColumnKeysStep | src/main/java/es/uam/eps/ir/knnbandit/graph/index/FastWeightedAutoRelation.java:85-113 | one more row adds its entries for the node to the count |
| WeightedRelations.RenumberRows | src/main/java/es/uam/eps/ir/knnbandit/graph/index/FastWeightedAutoRelation.java:82-116 | every remaining row of both sides renumbered, and the total of dropped entries |
| WeightedRelations.RenumberedRows | src/main/java/es/uam/eps/ir/knnbandit/graph/index/FastWeightedAutoRelation.java:82-116 | the rows renumbered one by one are the removed rows |
| WeightedRelations.RemovedCount | src/main/java/es/uam/eps/ir/knnbandit/graph/index/FastWeightedAutoRelation.java:75-120 | the other rows drop the node's incident and outgoing pairs, with a self-pair counted on neither |
| WeightedRelations.WeightedRelation.AddFirstItem | src/main/java/es/uam/eps/ir/knnbandit/graph/index/FastWeightedRelation.java:97-109 | accepted iff one past the last first element; an empty row on both sides; no weight changes |
| WeightedRelations.WeightedRelation.AddRelation | src/main/java/es/uam/eps/ir/knnbandit/graph/index/FastWeightedRelation.java:112-131 | accepted iff in range and not yet present; then exactly that pair gets the weight; otherwise nothing changes |
| WeightedRelations.WeightedRelation.GetValue | src/main/java/es/uam/eps/ir/knnbandit/graph/index/FastWeightedRelation.java:134-140 | the pair's weight, none for a negative index |
| WeightedRelations.WeightedRelation.ContainsPair | src/main/java/es/uam/eps/ir/knnbandit/graph/index/FastWeightedRelation.java:143-151 | true iff the pair has a weight |
| WeightedRelations.WeightedRelation.UpdatePair | src/main/java/es/uam/eps/ir/knnbandit/graph/index/FastWeightedRelation.java:154-193 | true iff in range and present or asked to create; then exactly that pair gets the weight; otherwise nothing changes |
| WeightedRelations.WeightedRelation.RemovePair | src/main/java/es/uam/eps/ir/knnbandit/graph/index/FastWeightedRelation.java:196-214 | true iff the pair was present; exactly that pair loses its weight |
| WeightedRelations.WeightedRelation.HasSeconds | src/main/java/es/uam/eps/ir/knnbandit/graph/index/FastWeightedRelation.java:262-267 | true iff the first element has a pair |
| WeightedRelations.WeightedRelation.HasFirsts | src/main/java/es/uam/eps/ir/knnbandit/graph/index/FastWeightedRelation.java:270-274 | true iff the second element has a pair |
| WeightedRelations.WeightedAutoRelation.constructor | src/main/java/es/uam/eps/ir/knnbandit/graph/index/FastWeightedAutoRelation.java:38-63 | a valid relation storing exactly the given weights |
| WeightedRelations.WeightedAutoRelation.AddFirstItem | src/main/java/es/uam/eps/ir/knnbandit/graph/index/FastWeightedRelation.java:97-109 | the new node gets an empty row on both sides; no weight changes |
| WeightedRelations.WeightedAutoRelation.DropAndRenumber | src/main/java/es/uam/eps/ir/knnbandit/graph/index/FastWeightedAutoRelation.java:73-116 | the node's rows go, the rest are renumbered, and the dropped entries are counted |
| WeightedRelations.WeightedAutoRelation.RemoveAsWritten | src/main/java/es/uam/eps/ir/knnbandit/graph/index/FastWeightedAutoRelation.java:66-133 | the rows as removed, but true iff in range and the node has no self-pair |
| WeightedRelations.WeightedAutoRelation.Remove | src/main/java/es/uam/eps/ir/knnbandit/graph/index/FastWeightedAutoRelation.java:66-133 | false iff out of range, with nothing changed; otherwise the node is gone and the remaining weights are the old ones renumbered |
| WeightedRelations.WeightedAutoRelation.GetIsolated | src/main/java/es/uam/eps/ir/knnbandit/graph/index/FastWeightedAutoRelation.java:136-142 | exactly the nodes with no pair on either side, increasing |
| WeightedRelations.SelfPairRemoval | src/main/java/es/uam/eps/ir/knnbandit/graph/index/FastWeightedAutoRelation.java:117-132 | a single node with a self-pair: the source's remove reports false |
| WeightedRelations.WeightedPairwiseRelation.constructor | src/main/java/es/uam/eps/ir/knnbandit/graph/index/FastWeightedPairwiseRelation.java:38-63 | a valid relation storing exactly the given weights |
| WeightedRelations.WeightedPairwiseRelation.NumSecond | src/main/java/es/uam/eps/ir/knnbandit/graph/index/FastWeightedPairwiseRelation.java:65-68 | the number of rows of first elements, above every related second element |
| WeightedRelations.WeightedPairwiseRelation.GetAllSecond | src/main/java/es/uam/eps/ir/knnbandit/graph/index/FastWeightedPairwiseRelation.java:71-78 | the second elements 0 to numSecond() - 1, in order |
| WeightedRelations.WeightedPairwiseRelation.AddSecondItem | src/main/java/es/uam/eps/ir/knnbandit/graph/index/FastWeightedPairwiseRelation.java:81-92 | accepted iff the next index, which gets an empty row; no weight changes |
| WeightedRelations.WeightedPairwiseRelation.AddFirstItemAsWritten | src/main/java/es/uam/eps/ir/knnbandit/graph/index/FastWeightedRelation.java:97-109 | the inherited addFirstItem, which also inserts a row on the second elements' side |
| WeightedRelations.WeightedPairwiseRelation.AddFirstItem | src/main/java/es/uam/eps/ir/knnbandit/graph/index/FastWeightedRelation.java:97-109 | a new row on the first elements' side only; no weight changes |
| WeightedRelations.FirstItemShiftsSeconds | src/main/java/es/uam/eps/ir/knnbandit/graph/index/FastWeightedRelation.java:97-109 | with more second than first elements, the inherited addFirstItem leaves the sides disagreeing |
| SortedLists.BinarySearch | src/main/java/es/uam/eps/ir/knnbandit/graph/index/FastUnweightedRelation.java:201-216 | the position of a present index; for an absent one a negative answer encoding the insertion point, with everything before it smaller and everything after larger |
| SortedLists.InsertEntry | src/main/java/es/uam/eps/ir/knnbandit/graph/index/FastWeightedRelation.java:112-131 | inserting a new index at the search's insertion point keeps the row strictly sorted, adds that index and changes no other lookup |
| SortedLists.SetEntry | src/main/java/es/uam/eps/ir/knnbandit/graph/index/FastWeightedRelation.java:154-193 | overwriting an entry in place changes only its lookup |
| SortedLists.RemoveEntry | src/main/java/es/uam/eps/ir/knnbandit/graph/index/FastWeightedRelation.java:196-214 | removing an entry makes its index absent and changes no other lookup |
| SortedLists.SortByIdx | src/main/java/es/uam/eps/ir/knnbandit/data/preference/fast/SimpleFastUpdateablePreferenceData.java:86-100 | the sort is sorted by index and a permutation |
| SortedLists.SortByIdxStrict | src/main/java/es/uam/eps/ir/knnbandit/data/preference/fast/SimpleFastUpdateablePreferenceData.java:86-100 | distinct indices come out strictly sorted |
| SortedLists.SortByIdxLookup | src/main/java/es/uam/eps/ir/knnbandit/data/preference/fast/SimpleFastUpdateablePreferenceData.java:86-100 | the stable sort finds the same first entry for every index |
| RelationLists.RenumberListMembers | src/main/java/es/uam/eps/ir/knnbandit/graph/index/FastUnweightedAutoRelation.java:109-121 | the renumbered list holds an index iff the old list held the element it stood for |
| RelationLists.RemovedHas | src/main/java/es/uam/eps/ir/knnbandit/graph/index/FastUnweightedAutoRelation.java:93-142 | after a removal each pair is the old pair of the elements the indices stood for |
| RelationLists.RemovedGet | src/main/java/es/uam/eps/ir/knnbandit/graph/index/FastWeightedAutoRelation.java:66-133 | the weighted counterpart: each weight is the old weight of the elements the indices stood for |
| RelationLists.RemovedMirrored | src/main/java/es/uam/eps/ir/knnbandit/graph/index/FastUnweightedAutoRelation.java:93-142 | removing an element from both sides keeps them sorted and mirrored |
| RelationLists.RemovedRowsMirrored | src/main/java/es/uam/eps/ir/knnbandit/graph/index/FastWeightedAutoRelation.java:66-133 | the weighted counterpart of RemovedMirrored |
| RelationLists.MirroredColumn | src/main/java/es/uam/eps/ir/knnbandit/graph/index/FastWeightedAutoRelation.java:73 | in a mirrored relation an element occurs in the other side's lists as often as its own list is long |
| RelationLists.TotalSizeRemoved | src/main/java/es/uam/eps/ir/knnbandit/graph/index/FastUnweightedAutoRelation.java:93-142 | a removal loses the element's own list and every occurrence of it in the others |
| RelationLists.NonEmpty | src/main/java/es/uam/eps/ir/knnbandit/graph/index/FastUnweightedRelation.java:219-234 | exactly the indices of the non-empty lists, increasing |
| RelationLists.BothEmpty | src/main/java/es/uam/eps/ir/knnbandit/graph/index/FastUnweightedAutoRelation.java:66-72 | exactly the indices where both sides are empty, increasing |
| RelationLists.SortedUnique | src/main/java/es/uam/eps/ir/knnbandit/graph/index/FastUnweightedAutoRelation.java:56-62 | two strictly sorted lists with the same members are equal |
| RelationLists.SelfPairsRemoved | src/main/java/es/uam/eps/ir/knnbandit/graph/index/FastUnweightedAutoRelation.java:93-142 | a removal loses the element's self-pair, if any, and keeps the others |
| Argmax.TiesUnique | src/main/java/es/uam/eps/ir/knnbandit/recommendation/basic/AbstractBasicInteractiveRecommender.java:87-92 | a single item of the best score is the only tie, taken without a draw |
| Argmax.TiesNone | src/main/java/es/uam/eps/ir/knnbandit/recommendation/basic/AbstractBasicInteractiveRecommender.java:70-85 | a value no score equals has no ties |
| Argmax.NoTiesAbove | src/main/java/es/uam/eps/ir/knnbandit/recommendation/basic/AbstractBasicInteractiveRecommender.java:70-85 | a value above every score has no ties |
| Bandits.PullsUpdate | src/main/java/es/uam/eps/ir/knnbandit/recommendation/bandits/item/EpsilonGreedyItemBandit.java:178-189 | one more reward for an arm is one more pull in total |
| Bandits.FinSumUpdate | src/main/java/es/uam/eps/ir/knnbandit/recommendation/bandits/item/EpsilonGreedyItemBandit.java:178-189 | changing one arm's value changes the running sum by the difference |
| Combiner.ScanNew | src/main/java/es/uam/eps/ir/knnbandit/utils/OrderedListCombiner.java:469-512 | a polled element of a new key is appended to the merge and becomes the last one |
| Combiner.ScanRepeat | src/main/java/es/uam/eps/ir/knnbandit/utils/OrderedListCombiner.java:469-512 | a polled element of the last key goes to the intersection, combined |
| Combiner.MergeSortedApart | src/main/java/es/uam/eps/ir/knnbandit/utils/OrderedListCombiner.java:71-111 | lists with different heads merge into an increasing list holding the keys of both |
| Combiner.MergeSortedBoth | src/main/java/es/uam/eps/ir/knnbandit/utils/OrderedListCombiner.java:71-111 | lists with equal heads merge into an increasing list holding the keys of both |

## Left out

- Command-line entry points, file input and output, the configuration parser and the factorisers (ALS, HKV, PLSA) are not part of this model. A factorisation is a value the caller supplies.
- The Beta and Gamma samplers, other than the shape ≤ 0 branch of the Gamma sampler, are out: they are floating-point rejection loops. The Beta similarity's sampled value and the Thompson-sampling draws are function parameters.
- `sqrt` and `log` (the UCB1 bonus, the cosine norms) are function parameters.
- Floating-point rounding is out: doubles are reals, except where NaN or an infinity changes a branch.
- Java `int` and `long` counters are unbounded integers; overflow is not modelled.
- Random number generators are nondeterministic choices. Seeds, and the exact item a seeded run would pick, are not modelled.
- Iteration orders are left free or fixed to one admissible order: the kNN user shuffle, the neighbour heap's poll order, `HashMap` iteration in the kNN scores (first insertion order), and the metrics map of the loop (a sequence).
- A Java exception on invalid input is a precondition, not a modelled error path. Examples are an out-of-range index into a list, or a null list dereferenced.
- Loop.RecommendationLoop.NextIteration: the accepted link's reverse pair must still be available (MirrorAvailable). The source's list removal throws otherwise; that path is not modelled.
- The user and item index layers that map identifiers to indices are not modelled: the model works on indices throughout. This covers `uidx2user`, `iidx2item` and the updateable indices.
- Loop.RecommendationLoop.NextIteration returns the accepted pair of indices, not the pair of identifiers.
- Loop.RecommendationLoop.Replay: the loop drives only the base InteractiveRecommender. recommender.update also runs the strategy's updateMethod (the Avg means, the Popularity counts, the bandit arms, the MF counter, the kNN similarity), and that call is not forwarded here, because the loop holds no strategy value to dispatch on. Each strategy's Update is modelled and proved on its own (Basic, Bandits, MatrixFactorization, Knn), composing the same base update with its updateMethod.
- Loop.RecommendationLoop.NextIteration: like Replay, it feeds the accepted pair only to the base recommender and every metric; the strategy's updateMethod is not forwarded. Its choice of item is the guarantee every strategy's next shares (Loop.NextItem).
- Loop.RecommendationLoop.Advance: the pair reaches the strategy only through the base update, as for Replay.
- getCurrentIteration of the loop is the field `iteration`, read directly. hasEnded is the predicate HasEnded, which NextIteration's contract uses. Neither has a row of its own.
- The random recommender's updateMethod is empty: the model has no state for it to change.
- InteractiveUserBasedKNN's score(v, r) returns the rating r. The score is written inline as the rating in ScoreRow rather than as a separate function.
- The unweighted relations' getValue always returns null. The model has no weight to return, so it is not a member.
- MatrixFactorization.InteractiveMF.constructor: the source factorises with the raw k argument, not the adjusted one. The model takes the first factorisation as a parameter, so that difference is not visible.
- MatrixFactorization.InteractiveMF.RecordAll: when one or more refits happen, it states only that the factorisation is one of the supplied refits, not which one.
- MatrixFactorization.InteractiveMF.Update: it states the factorisation only when no refit happens.
- Knn.UserBasedKNN.Next: among items of equal score, and for the fallback draw, it states only membership in the available items.
- The directed and undirected edge classes remove a node through the corrected relation removals (the Findings rows for the auto relations). The source's removeNode goes through the removals as written.
- The undirected edges' hasMutualEdges is not a member. So are FastEdges' getNumEdges, getNeighbourCount and getMutualCount, and the stream getters for neighbour types and weights other than those modelled. They are one-line reads of the fields and lists the model exposes.
- The edge classes ignore weight and type arguments as the source does. Only the default weight 1.0 and the stored type are modelled.
- The interface and wrapper layers (graphs, generators, edge interfaces, similarity and bandit interfaces) are not modelled. Their behaviour lives in the classes above, with `Similarity` and `ItemBandit` as datatypes over the concrete classes.

## Findings

| source | as written | input that shows it | evidently intended | confidence | as-written member | corrected member |
|---|---|---|---|---|---|---|
| src/main/java/es/uam/eps/ir/knnbandit/stats/GammaDistribution.java:95-98 | updateShape assigns the field to itself, so update(v, 0) leaves the shape unchanged | shape 1.0, update(2.0, 0): the shape stays 1.0 | the shape becomes v | high (not executed) | Distributions.GammaDistribution.SetParameter | Distributions.GammaDistribution.SetParameterIntended |
| src/main/java/es/uam/eps/ir/knnbandit/utils/OrderedListCombiner.java:493-502 | the intersection always calls combiner(last polled, current), whichever list each came from | keys [0, 1] and [1]: the queue releases the second list's 1 first, so the combiner gets (second's, first's) | combiner(first list's element, second list's element), as in intersectLists | medium (not executed) | Combiner.MergeAndIntersectLists, Combiner.CrossedDiffers | Combiner.MergeAndIntersectListsIntended |
| src/main/java/es/uam/eps/ir/knnbandit/graph/index/FastWeightedAutoRelation.java:73-132 | the expected count subtracts one for a self-pair, but the self-pair sits only in the node's own rows, which are dropped before the scan | a single node with a self-pair: remove(0) removes it and returns false | true for every in-range removal | high (not executed) | WeightedRelations.WeightedAutoRelation.RemoveAsWritten, WeightedRelations.SelfPairRemoval | WeightedRelations.WeightedAutoRelation.Remove |
| src/main/java/es/uam/eps/ir/knnbandit/graph/index/FastUnweightedAutoRelation.java:106-139 | `filter(j -> j != idx)` skips list position idx instead of the entry idx | node 0 with edges to 1 and 2; remove(1) loses the edge to node 2 | drop the entries equal to idx and renumber the rest | high (not executed) | UnweightedRelations.UnweightedAutoRelation.RemoveAsWritten, UnweightedRelations.RemoveLosesEdge | UnweightedRelations.UnweightedAutoRelation.Remove |
| src/main/java/es/uam/eps/ir/knnbandit/graph/index/FastUnweightedPairwiseRelation.java:167-226 | the search answer is compared with `> 0`, so a match at position 0 counts as absent | the single pair (0, 0): containsPair is false, and addRelation and updatePair insert a duplicate | `>= 0`, as in the other relations | high (not executed) | UnweightedRelations.UnweightedPairwiseRelation.ContainsPairAsWritten, UnweightedRelations.UnweightedPairwiseRelation.AddRelationAsWritten, UnweightedRelations.UnweightedPairwiseRelation.UpdatePairAsWritten, UnweightedRelations.PairAtHeadMishandled | UnweightedRelations.UnweightedPairwiseRelation.ContainsPair, UnweightedRelations.UnweightedPairwiseRelation.AddRelation, UnweightedRelations.UnweightedPairwiseRelation.UpdatePair |
| src/main/java/es/uam/eps/ir/knnbandit/graph/index/fast/FastIndex.java:76-81 | the bound check is `idx > size` | idx2object(size) passes the check and the list access throws | null for every index out of range | high (not executed) | Indexes.FastIndex.Idx2objectAsWritten | Indexes.FastIndex.Idx2object |
| src/main/java/es/uam/eps/ir/knnbandit/graph/edges/fast/FastDirectedUnweightedEdges.java:93-119 | a new neighbour closes the previous one only when `currentNeigh > 0` | incident [0], adjacent [1]: node 0 is not reported and node 1 gets weight 2 | `currentNeigh != -1`, reporting (0, 1.0) and (1, 1.0) | high (not executed) | DirectedEdges.DirectedUnweightedEdges.NeighbourWeightsAsWritten, Neighbours.NodeZeroMerged | DirectedEdges.DirectedUnweightedEdges.NeighbourWeights |
| src/main/java/es/uam/eps/ir/knnbandit/graph/index/FastWeightedRelation.java:97-109 | the weighted pairwise relation inherits addFirstItem, which also inserts a row on the second elements' side | one first element related to second elements 0 and 1; addFirstItem(1) also inserts an empty row at position 1 of the second elements' lists, so second element 1 loses its pair there and the two sides stop mirroring | a new row on the first elements' side only, as the unweighted pairwise relation does | medium (not executed) | WeightedRelations.WeightedPairwiseRelation.AddFirstItemAsWritten, WeightedRelations.FirstItemShiftsSeconds | WeightedRelations.WeightedPairwiseRelation.AddFirstItem |
| src/main/java/es/uam/eps/ir/knnbandit/graph/edges/fast/FastEdges.java:94-102 | the undirected edges inherit removeEdge, which removes only the (orig, dest) direction | undirected edge between 0 and 1; removeEdge(0, 1) leaves (1, 0) and breaks symmetry | both directions removed, mirroring addEdge | high (not executed) | UndirectedEdges.UndirectedUnweightedEdges.RemoveEdgeAsWritten | UndirectedEdges.UndirectedUnweightedEdges.RemoveEdge |
