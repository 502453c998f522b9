/** The tag categories of the site configuration: for each category, the colour
    classes of its badges and the tags it lists. */
module Config {

  /** One entry `<key>: [classes, tags]` of the category record. */
  datatype TagCategory = TagCategory(key: string, classes: string, tags: seq<string>)

  /** The category record, in its declaration order. */
  const TagCategories: seq<TagCategory> := [
    TagCategory("languages", "bg-green-200 text-green-700",
      ["python", "typescript", "javascript", "java", "go"]),
    TagCategory("frameworksAndLibraries", "bg-blue-200 text-blue-700",
      ["react", "next.js", "tailwind css"]),
    TagCategory("devOps", "bg-amber-200 text-amber-700",
      ["docker", "git", "kubernetes"]),
    TagCategory("databases", "bg-purple-200 text-purple-700",
      ["mongodb", "sql", "postgresql"]),
    TagCategory("hardware", "bg-rose-200 text-rose-700",
      ["3d modeling", "3d printing", "cad", "arduino", "electrical systems", "embedded systems"])
  ]
}
