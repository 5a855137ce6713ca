TestResult.DisplayName,TestResult.Outcome,TestResult.Duration,TestResult.ResourceCount,RandomSeed
DetTheory.TwoByTwoSolution (correctness),Passed,00:00:00.2461333,369019,0
Findings.TwoByTwoIsExpansion (well-formedness),Passed,00:00:00.2351191,89840,0
Findings.TwoByTwoIsExpansion (correctness),Passed,00:00:00.2239043,104684,0
DetTheory.TwoByTwoSolution (well-formedness),Passed,00:00:00.1333935,164723,0
DetTheory.SolvedTwoByTwo (correctness),Passed,00:00:00.1104321,24781,0
DetTheory.SolvedTwoByTwo (well-formedness),Passed,00:00:00.1072148,2628,0
DetTheory.TwoByTwoProduct (correctness),Passed,00:00:00.0567708,57736,0
DetTheory.TwoByTwoProduct (well-formedness),Passed,00:00:00.0326536,42653,0
