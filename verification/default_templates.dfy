/** The built-in templates of src/utils/promptTemplates.js
    (`defaultTemplates`), kept apart from the placeholder engine. */
module BuiltInTemplates {
  import opened Wrappers
  import opened PromptTemplates

  /** The built-in templates (`defaultTemplates`). */
  const DefaultTemplates: seq<Template> :=
    [
      Template(Some(1), "Basic Prompt",
        "Please provide a detailed response to the following prompt:\n\n{{prompt}}",
        None),
      Template(Some(2), "Code Explanation",
        "Explain the following code:\n\n```{{language}}```\n\nFile: {{file_reference}}\n\nProvide a detailed explanation of what this code does and how it works.",
        None),
      Template(Some(3), "Generate Code",
        "Generate a {{language}} code snippet to {{task}}.\n\n{{requirements}}",
        None),
      Template(Some(4), "Self-Consistency Problem Solving",
        "Problem: {{problem_statement}}\n\nGenerate three different approaches to solve this problem:\n\nApproach 1:\n{{approach_1}}\n\nApproach 2:\n{{approach_2}}\n\nApproach 3:\n{{approach_3}}\n\nNow, analyze these approaches and provide a synthesized solution that combines the best elements of each:\n\nSynthesized Solution:\n{{synthesized_solution}}\n\nExplain why this synthesized solution is the most effective approach to the problem.",
        Some("Problem Solving")),
      Template(Some(5), "Self-Consistency Problem Solving",
        "Problem: {{problem_statement}}\n  \n  Generate three different approaches to solve this problem:\n  \n  Approach 1:\n  {{approach_1}}\n  \n  Approach 2:\n  {{approach_2}}\n  \n  Approach 3:\n  {{approach_3}}\n  \n  Now, analyze these approaches and provide a synthesized solution that combines the best elements of each:\n  \n  Synthesized Solution:\n  {{synthesized_solution}}\n  \n  Explain why this synthesized solution is the most effective approach to the problem.",
        None),
      Template(Some(6), "Research Paper Analysis - Step 1",
        "Analyze the following research paper abstract:\n  \n  {{file_reference}}\n  \n  1. Identify the main research question:\n  {{research_question}}\n  \n  2. List the key methodologies used:\n  {{methodologies}}\n  \n  3. Summarize the main findings:\n  {{findings}}",
        None),
      Template(Some(7), "Research Paper Analysis - Step 2",
        "Based on the previous analysis:\n  \n  Research Question: {{research_question}}\n  Methodologies: {{methodologies}}\n  Findings: {{findings}}\n  \n  Now, perform the following tasks:\n  \n  1. Evaluate the strengths and weaknesses of the methodology:\n  {{methodology_evaluation}}\n  \n  2. Discuss potential implications of the findings:\n  {{implications}}\n  \n  3. Suggest areas for further research:\n  {{further_research}}",
        None),
      Template(Some(8), "Chain-of-Thought Problem Solving",
        "Problem: {{problem_statement}}\n  \n  Let's approach this step-by-step:\n  \n  1. Understand the given information:\n     {{given_information}}\n  \n  2. Identify the key elements:\n     {{key_elements}}\n  \n  3. Formulate a plan:\n     {{solution_plan}}\n  \n  4. Execute the plan:\n     {{solution_execution}}\n  \n  5. Verify the solution:\n     {{solution_verification}}\n  \n  6. Conclusion:\n     {{conclusion}}\n  \n  Now, provide a detailed explanation for each step.",
        None)
    ]


  /** The built-in list: eight templates with ids 1 to 8 in order, so the
      ids are distinct; the fourth and fifth share their name. */
  lemma DefaultTemplateIds()
    ensures |DefaultTemplates| == 8
    ensures forall i :: 0 <= i < 8 ==> DefaultTemplates[i].id == Some(i + 1)
    ensures forall i, j :: 0 <= i < j < 8 ==> DefaultTemplates[i].id != DefaultTemplates[j].id
    ensures DefaultTemplates[3].name == DefaultTemplates[4].name
    ensures forall i :: 0 <= i < 8 && i != 3 ==> DefaultTemplates[i].category.None?
  {
  }
}
